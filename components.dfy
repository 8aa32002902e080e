/** The electrical primitives of a DC power tree: one closed datatype for the
    seven component kinds, their construction-time validation, and the
    per-kind rules the solver applies (initial values, one propagation step,
    power and loss, limit warnings). */
module Components {

  /** The component type tags; the three load kinds share `LOAD`. */
  datatype Kind = SOURCE | LOAD | LOSS | CONVERTER | LINREG

  datatype Option<T> = None | Some(value: T)

  datatype Result<T, E> = Ok(value: T) | Err(error: E)

  /** Why a component could not be built. */
  datatype ParamError =
    | RsIsZero
    | EffNotAboveZero
    | EffNotBelowOne
    | VdropNotBelowVo
    | MissingKey(key: string)

  /** Upper end of a limit that was not given. */
  const MaxDefault: real := 1.0e6

  /** The phase argument the system passes: "no phase". */
  const NoPhase: string := ""

  /** A `[min, max]` limit pair. */
  datatype Range = Range(lo: real, hi: real)

  /** Limits on "vi", "vo", "ii" and "io", keyed by those names. */
  type Limits = map<string, Range>

  const DefaultRange: Range := Range(0.0, MaxDefault)

  function Abs(x: real): real { if x < 0.0 then -x else x }

  function Min(a: real, b: real): real { if a <= b then a else b }

  function Max(a: real, b: real): real { if a >= b then a else b }

  /** A component. Magnitudes that the constructors store with `abs` are
      non-negative in every value the factories below produce. */
  datatype Component =
    | Source(name: string, vo: real, rs: real, limits: Limits)
    | PLoad(name: string, pwr: real, pwrs: real, phaseLoads: map<string, real>, limits: Limits)
    | ILoad(name: string, ii: real, iis: real, phaseLoads: map<string, real>, limits: Limits)
    | RLoad(name: string, rs: real, phaseLoads: map<string, real>, limits: Limits)
    | Loss(name: string, rs: real, vdrop: real, limits: Limits)
    | Converter(name: string, vo: real, eff: real, iq: real, iis: real,
                activePhases: seq<string>, limits: Limits)
    | LinReg(name: string, vo: real, vdrop: real, iq: real, iis: real,
             activePhases: seq<string>, limits: Limits)
  {
    predicate IsLoad() { PLoad? || ILoad? || RLoad? }

    function KindOf(): Kind {
      match this
      case Source(_, _, _, _) => SOURCE
      case PLoad(_, _, _, _, _) => LOAD
      case ILoad(_, _, _, _, _) => LOAD
      case RLoad(_, _, _, _) => LOAD
      case Loss(_, _, _, _) => LOSS
      case Converter(_, _, _, _, _, _, _) => CONVERTER
      case LinReg(_, _, _, _, _, _, _) => LINREG
    }
  }

  /** What every constructed component satisfies: the validated conditions
      and the non-negativity of the magnitudes stored with `abs`. */
  predicate WellFormed(c: Component) {
    match c
    case Source(_, _, rs, _) => rs >= 0.0
    case PLoad(_, pwr, pwrs, _, _) => pwr >= 0.0 && pwrs >= 0.0
    case ILoad(_, ii, iis, _, _) => ii >= 0.0 && iis >= 0.0
    case RLoad(_, rs, _, _) => rs > 0.0
    case Loss(_, rs, vdrop, _) => rs >= 0.0 && vdrop >= 0.0
    case Converter(_, _, eff, iq, iis, _, _) => 0.0 < eff < 1.0 && iq >= 0.0 && iis >= 0.0
    case LinReg(_, vo, vdrop, iq, iis, _, _) => 0.0 <= vdrop < Abs(vo) && iq >= 0.0 && iis >= 0.0
  }

  // ---------------------------------------------------------------------------
  // Parameter lookup helpers

  /** An optional parameter: the stored value when present, else the default. */
  function GetOpt<K, V>(m: map<K, V>, key: K, default: V): (r: V)
    ensures key in m ==> r == m[key]
    ensures key !in m ==> r == default
  {
    if key in m then m[key] else default
  }

  /** A mandatory parameter: missing keys are an error naming the key. */
  function GetMand<V>(m: map<string, V>, key: string): (r: Result<V, ParamError>)
    ensures r.Ok? <==> key in m
    ensures r.Ok? ==> r.value == m[key]
    ensures r.Err? ==> r.error == MissingKey(key)
  {
    if key in m then Ok(m[key]) else Err(MissingKey(key))
  }

  // ---------------------------------------------------------------------------
  // Construction

  function NewSource(name: string, vo: real, rs: real, limits: Limits): (c: Component)
    ensures c.Source? && c.name == name && c.limits == limits
    ensures c.vo == vo && c.rs == Abs(rs)
    ensures WellFormed(c)
  {
    Source(name, vo, Abs(rs), limits)
  }

  function NewPLoad(name: string, pwr: real, limits: Limits, pwrs: real,
                    phaseLoads: map<string, real>): (c: Component)
    ensures c.PLoad? && c.name == name && c.limits == limits && c.phaseLoads == phaseLoads
    ensures c.pwr == Abs(pwr) && c.pwrs == Abs(pwrs)
    ensures WellFormed(c)
  {
    PLoad(name, Abs(pwr), Abs(pwrs), phaseLoads, limits)
  }

  function NewILoad(name: string, ii: real, limits: Limits, iis: real,
                    phaseLoads: map<string, real>): (c: Component)
    ensures c.ILoad? && c.name == name && c.limits == limits && c.phaseLoads == phaseLoads
    ensures c.ii == Abs(ii) && c.iis == Abs(iis)
    ensures WellFormed(c)
  {
    ILoad(name, Abs(ii), Abs(iis), phaseLoads, limits)
  }

  /** A resistive load; a zero resistance is refused. */
  function NewRLoad(name: string, rs: real, limits: Limits,
                    phaseLoads: map<string, real>): (r: Result<Component, ParamError>)
    ensures r.Ok? <==> rs != 0.0
    ensures r.Err? ==> r.error == RsIsZero
    ensures r.Ok? ==> r.value.RLoad? && r.value.name == name && r.value.rs == Abs(rs)
                      && r.value.limits == limits && r.value.phaseLoads == phaseLoads
    ensures r.Ok? ==> WellFormed(r.value)
  {
    if Abs(rs) == 0.0 then Err(RsIsZero) else Ok(RLoad(name, Abs(rs), phaseLoads, limits))
  }

  function NewLoss(name: string, rs: real, vdrop: real, limits: Limits): (c: Component)
    ensures c.Loss? && c.name == name && c.limits == limits
    ensures c.rs == Abs(rs) && c.vdrop == Abs(vdrop)
    ensures WellFormed(c)
  {
    Loss(name, Abs(rs), Abs(vdrop), limits)
  }

  /** A switching converter; the efficiency must lie strictly between 0 and 1,
      and the lower bound is checked first. */
  function NewConverter(name: string, vo: real, eff: real, iq: real, limits: Limits,
                        iis: real, activePhases: seq<string>): (r: Result<Component, ParamError>)
    ensures r.Ok? <==> 0.0 < eff < 1.0
    ensures eff <= 0.0 ==> r == Err(EffNotAboveZero)
    ensures eff >= 1.0 ==> r == Err(EffNotBelowOne)
    ensures r.Ok? ==> r.value.Converter? && r.value.name == name && r.value.vo == vo
                      && r.value.eff == eff && r.value.iq == Abs(iq) && r.value.iis == Abs(iis)
                      && r.value.activePhases == activePhases && r.value.limits == limits
    ensures r.Ok? ==> WellFormed(r.value)
  {
    if !(eff > 0.0) then Err(EffNotAboveZero)
    else if !(eff < 1.0) then Err(EffNotBelowOne)
    else Ok(Converter(name, vo, eff, Abs(iq), Abs(iis), activePhases, limits))
  }

  /** A linear regulator; the dropout must be smaller in magnitude than the
      output voltage. */
  function NewLinReg(name: string, vo: real, vdrop: real, iq: real, limits: Limits,
                     iis: real, activePhases: seq<string>): (r: Result<Component, ParamError>)
    ensures r.Ok? <==> Abs(vdrop) < Abs(vo)
    ensures r.Err? ==> r.error == VdropNotBelowVo
    ensures r.Ok? ==> r.value.LinReg? && r.value.name == name && r.value.vo == vo
                      && r.value.vdrop == Abs(vdrop) && r.value.iq == Abs(iq)
                      && r.value.iis == Abs(iis) && r.value.activePhases == activePhases
                      && r.value.limits == limits
    ensures r.Ok? ==> WellFormed(r.value)
  {
    if !(Abs(vdrop) < Abs(vo)) then Err(VdropNotBelowVo)
    else Ok(LinReg(name, vo, Abs(vdrop), Abs(iq), Abs(iis), activePhases, limits))
  }

  /** The kinds a node of this kind accepts as children: none for a load,
      every kind except SOURCE otherwise. */
  function ChildTypes(c: Component): (ks: set<Kind>)
    ensures SOURCE !in ks
    ensures ks == {} <==> c.IsLoad()
    ensures !c.IsLoad() ==> LOAD in ks && LOSS in ks && CONVERTER in ks && LINREG in ks
  {
    if c.IsLoad() then {} else {LOAD, LOSS, CONVERTER, LINREG}
  }

  /** The child-kind rule: loads accept nothing, every other kind accepts
      every kind except a source. */
  lemma ChildTypesRule(c: Component, k: Kind)
    ensures k in ChildTypes(c) <==> !c.IsLoad() && k != SOURCE
  {
    match k
    case SOURCE =>
    case LOAD =>
    case LOSS =>
    case CONVERTER =>
    case LINREG =>
  }

  // ---------------------------------------------------------------------------
  // Phases

  /** Which value a load uses in a phase. */
  datatype LoadSel = Base | Standby | Override(value: real)

  /** No phase, or no overrides: the base value; an unlisted phase: the
      standby value; a listed phase: its override. */
  function SelectLoad(phaseLoads: map<string, real>, phase: string): (s: LoadSel)
    ensures s.Base? <==> phase == NoPhase || phaseLoads == map[]
    ensures s.Standby? <==> phase != NoPhase && phaseLoads != map[] && phase !in phaseLoads
    ensures s.Override? <==> phase != NoPhase && phase in phaseLoads
    ensures s.Override? ==> s.value == phaseLoads[phase]
  {
    if phase == NoPhase || |phaseLoads| == 0 then Base
    else if phase !in phaseLoads then Standby
    else Override(phaseLoads[phase])
  }

  function LoadValue(s: LoadSel, base: real, standby: real): real {
    match s
    case Base => base
    case Standby => standby
    case Override(x) => x
  }

  /** A converter or regulator is switched off in a named phase that its
      non-empty active-phase list does not contain. */
  predicate Inactive(activePhases: seq<string>, phase: string) {
    phase != NoPhase && |activePhases| > 0 && phase !in activePhases
  }

  /** The resistance a resistive load uses in a phase (no standby value). */
  function RLoadResistance(c: Component, phase: string): real
    requires c.RLoad?
  {
    match SelectLoad(c.phaseLoads, phase)
    case Override(r) => r
    case _ => c.rs
  }

  /** The input-current rule divides by the resistance of a resistive load;
      a zero phase override would fail there. */
  predicate InCurrDefined(c: Component, phase: string) {
    c.RLoad? ==> RLoadResistance(c, phase) != 0.0
  }

  // ---------------------------------------------------------------------------
  // Per-kind solver rules

  /** Output voltage before the first iteration. */
  function InitOutVoltage(c: Component, phase: string): (v: real)
    ensures v != 0.0 ==> c.Source? || ((c.Converter? || c.LinReg?) && !Inactive(c.activePhases, phase))
    ensures c.Source? || ((c.Converter? || c.LinReg?) && !Inactive(c.activePhases, phase)) ==> v == c.vo
  {
    if c.Source? then c.vo
    else if c.Converter? || c.LinReg? then (if Inactive(c.activePhases, phase) then 0.0 else c.vo)
    else 0.0
  }

  /** Input current before the first iteration (the resistive load inherits
      the power load's zero). */
  function InitInCurrent(c: Component, phase: string): (i: real)
    ensures i != 0.0 ==> c.ILoad? || c.Converter? || c.LinReg?
    ensures WellFormed(c) ==> i >= 0.0
    ensures c.ILoad? ==> i == c.ii
    ensures (c.Converter? || c.LinReg?) && !Inactive(c.activePhases, phase) ==> i == c.iq
    ensures (c.Converter? || c.LinReg?) && Inactive(c.activePhases, phase) ==> i == c.iis
  {
    if c.ILoad? then c.ii
    else if c.Converter? || c.LinReg? then (if Inactive(c.activePhases, phase) then c.iis else c.iq)
    else 0.0
  }

  /** One forward step: the voltage the node presents to its children, from
      its input voltage, its own input current and its children's current. */
  function SolveOutVolt(c: Component, vi: real, ii: real, io: real, phase: string): (v: real)
    ensures c.Source? ==> v == c.vo - c.rs * io
    ensures c.IsLoad() ==> v == 0.0
    ensures c.Converter? && !Inactive(c.activePhases, phase) ==> v == c.vo
    ensures (c.Converter? || c.LinReg?) && Inactive(c.activePhases, phase) ==> v == 0.0
    ensures WellFormed(c) && (c.Loss? || c.LinReg?) && vi == 0.0 ==> v == 0.0
    ensures WellFormed(c) && c.LinReg? ==> Abs(v) <= Abs(c.vo) && Abs(v) <= Abs(vi)
  {
    match c
    case Source(_, vo, rs, _) => vo - rs * io
    case PLoad(_, _, _, _, _) => 0.0
    case ILoad(_, _, _, _, _) => 0.0
    case RLoad(_, _, _, _) => 0.0
    case Loss(_, rs, vdrop, _) =>
      if Abs(vi) == 0.0 then 0.0
      else if vi >= 0.0 then vi - rs * io - vdrop
      else vi + rs * io + vdrop
    case Converter(_, vo, _, _, _, ap, _) => if Inactive(ap, phase) then 0.0 else vo
    case LinReg(_, vo, vdrop, _, _, ap, _) =>
      var v := if Inactive(ap, phase) then 0.0 else Min(Abs(vo), Max(Abs(vi) - vdrop, 0.0));
      if vo >= 0.0 then v else -v
  }

  /** One backward step: the current the node draws, from its input voltage,
      its output voltage and its children's current. */
  function SolveInCurr(c: Component, vi: real, vo: real, io: real, phase: string): (i: real)
    requires InCurrDefined(c, phase)
    ensures c.Source? ==> i == io
    ensures !c.Source? && vi == 0.0 ==> i == 0.0
    ensures c.ILoad? ==> i >= 0.0
    ensures c.LinReg? && vi != 0.0 && !Inactive(c.activePhases, phase) ==> i == io + c.iq
    ensures WellFormed(c) && (c.Converter? || c.LinReg?) && io >= 0.0 ==> i >= 0.0
  {
    match c
    case Source(_, _, _, _) => io
    case PLoad(_, pwr, pwrs, pl, _) =>
      if vi == 0.0 then 0.0 else LoadValue(SelectLoad(pl, phase), pwr, pwrs) / Abs(vi)
    case ILoad(_, ii, iis, pl, _) =>
      if vi == 0.0 then 0.0 else Abs(LoadValue(SelectLoad(pl, phase), ii, iis))
    case RLoad(_, _, _, _) => Abs(vi) / RLoadResistance(c, phase)
    case Loss(_, _, _, _) => if Abs(vi) == 0.0 then 0.0 else io
    case Converter(_, _, eff, iq, iis, ap, _) =>
      if Abs(vi) == 0.0 then 0.0
      else if Inactive(ap, phase) then iis
      else if eff * vi > 0.0 then iq + Abs(vo * io / (eff * vi))
      else 0.0
    case LinReg(_, _, _, iq, iis, ap, _) =>
      if Abs(vi) == 0.0 then 0.0
      else if Inactive(ap, phase) then iis
      else io + iq
  }

  /** Efficiency in percent of a stage that takes `ipwr` and delivers `opwr`;
      the default when no power goes in. */
  function GetEff(ipwr: real, opwr: real, defEff: real): (e: real)
    ensures ipwr > 0.0 ==> e >= 0.0 && e * ipwr == 100.0 * Abs(opwr)
    ensures ipwr <= 0.0 ==> e == defEff
    ensures defEff >= 0.0 ==> e >= 0.0
  {
    if ipwr > 0.0 then
      var q := opwr / ipwr;
      assert Abs(q) * ipwr == Abs(opwr);
      100.0 * Abs(q)
    else defEff
  }

  /** The (input power, loss, efficiency in percent) triple of a row. */
  datatype PwrLoss = PwrLoss(pwr: real, loss: real, eff: real)

  /** A source's row: its output power plus the series-resistance loss goes
      in; with no input power the efficiency defaults to 100. */
  function SourcePwrLoss(rs: real, vo: real, io: real): (r: PwrLoss)
    ensures r.loss == rs * io * io && r.pwr == Abs(vo * io) + r.loss
    ensures r.pwr > 0.0 ==> r.eff * r.pwr == 100.0 * Abs(vo * io)
    ensures r.pwr <= 0.0 ==> r.eff == 100.0
    ensures r.eff >= 0.0
  {
    var opwr := Abs(vo * io);
    var loss := rs * io * io;
    var ipwr := opwr + loss;
    PwrLoss(ipwr, loss, GetEff(ipwr, opwr, 100.0))
  }

  /** A series loss's row: no reported power, the magnitude of the resistive
      and diode-drop loss, and output over input power as efficiency. */
  function SeriesPwrLoss(rs: real, vdrop: real, vi: real, vo: real, ii: real, io: real): (r: PwrLoss)
    ensures r.pwr == 0.0 && r.loss == Abs(rs * ii * ii + vdrop * ii) && r.eff >= 0.0
    ensures Abs(vi * ii) > 0.0 ==> r.eff * Abs(vi * ii) == 100.0 * Abs(vo * io)
    ensures Abs(vi * ii) == 0.0 ==> r.eff == 0.0
  {
    PwrLoss(0.0, Abs(rs * ii * ii + vdrop * ii), GetEff(Abs(vi * ii), Abs(vo * io), 0.0))
  }

  /** A converter's row: the quiescent loss plus the conversion loss when
      active, the standby loss when switched off. */
  function ConverterPwrLoss(eff: real, iq: real, iis: real, off: bool, vi: real, ii: real): (r: PwrLoss)
    ensures r.pwr == 0.0 && r.eff >= 0.0
    ensures off ==> r.loss == Abs(iis * vi)
    ensures !off ==> r.loss == Abs(iq * vi + (ii - iq) * vi * (1.0 - eff))
  {
    var loss := if off then Abs(iis * vi) else Abs(iq * vi + (ii - iq) * vi * (1.0 - eff));
    var pwr := if off then 0.0 else Abs(vi * ii);
    PwrLoss(0.0, loss, GetEff(pwr, pwr - loss, 0.0))
  }

  /** A linear regulator's row: the headroom times the output current plus
      the quiescent loss when active, the standby loss when switched off. */
  function LinRegPwrLoss(iq: real, iis: real, off: bool, vi: real, vo: real, ii: real, io: real): (r: PwrLoss)
    ensures r.pwr == 0.0 && r.eff >= 0.0
    ensures off ==> r.loss == Abs(iis * vi)
    ensures !off ==> r.loss == (Abs(vi) - Abs(vo)) * io + Abs(vi) * iq
  {
    var loss := if off then Abs(iis * vi) else (Abs(vi) - Abs(vo)) * io + Abs(vi) * iq;
    var pwr := if off then 0.0 else Abs(vi * ii);
    PwrLoss(0.0, loss, GetEff(pwr, pwr - loss, 0.0))
  }

  function SolvePwrLoss(c: Component, vi: real, vo: real, ii: real, io: real, phase: string): (r: PwrLoss)
    ensures !c.Source? && !c.IsLoad() ==> r.pwr == 0.0
    ensures c.IsLoad() ==> r.pwr == Abs(vi * ii) && r.loss == 0.0 && r.eff == 100.0
    ensures r.eff >= 0.0
  {
    match c
    case Source(_, _, rs, _) => SourcePwrLoss(rs, vo, io)
    case PLoad(_, _, _, _, _) => PwrLoss(Abs(vi * ii), 0.0, 100.0)
    case ILoad(_, _, _, _, _) => PwrLoss(Abs(vi * ii), 0.0, 100.0)
    case RLoad(_, _, _, _) => PwrLoss(Abs(vi * ii), 0.0, 100.0)
    case Loss(_, rs, vdrop, _) => SeriesPwrLoss(rs, vdrop, vi, vo, ii, io)
    case Converter(_, _, eff, iq, iis, ap, _) => ConverterPwrLoss(eff, iq, iis, Inactive(ap, phase), vi, ii)
    case LinReg(_, _, _, iq, iis, ap, _) => LinRegPwrLoss(iq, iis, Inactive(ap, phase), vi, vo, ii, io)
  }


  // ---------------------------------------------------------------------------
  // Limit warnings

  /** One checked quantity: its key ("vi", "vo", "ii" or "io") and value. */
  datatype Check = Check(key: string, value: real)

  /** The limit for a key; a missing one is [0, 1e6]. */
  function LimitOf(limits: Limits, key: string): Range {
    GetOpt(limits, key, DefaultRange)
  }

  /** The magnitude lies outside [|lo|, |hi|]. */
  predicate OutOfRange(r: Range, x: real) {
    Abs(x) > Abs(r.hi) || Abs(x) < Abs(r.lo)
  }

  predicate Violates(limits: Limits, ch: Check) {
    OutOfRange(LimitOf(limits, ch.key), ch.value)
  }

  /** The keys of the checks that violate their limit, in check order. */
  function Flagged(limits: Limits, checks: seq<Check>): seq<string>
    decreases |checks|
  {
    if checks == [] then []
    else
      var last := checks[|checks| - 1];
      Flagged(limits, checks[..|checks| - 1]) + (if Violates(limits, last) then [last.key] else [])
  }

  /** Each key followed by one space. */
  function Spaced(keys: seq<string>): string
    decreases |keys|
  {
    if keys == [] then "" else Spaced(keys[..|keys| - 1]) + keys[|keys| - 1] + " "
  }

  /** The warning text: every violating key followed by a space. */
  function WarnText(limits: Limits, checks: seq<Check>): string {
    Spaced(Flagged(limits, checks))
  }

  lemma {:induction false} FlaggedMembers(limits: Limits, checks: seq<Check>, k: string)
    ensures k in Flagged(limits, checks) <==>
            exists j :: 0 <= j < |checks| && checks[j].key == k && Violates(limits, checks[j])
    decreases |checks|
  {
    if checks != [] {
      var init := checks[..|checks| - 1];
      FlaggedMembers(limits, init, k);
      assert forall j :: 0 <= j < |init| ==> init[j] == checks[j];
    }
  }

  lemma {:induction false} SpacedEmpty(keys: seq<string>)
    ensures Spaced(keys) == "" <==> keys == []
  {
    if keys != [] {
      assert |Spaced(keys)| >= 1;
    }
  }

  /** No warning text exactly when no checked value violates its limit. */
  lemma {:induction false} WarnTextEmpty(limits: Limits, checks: seq<Check>)
    ensures WarnText(limits, checks) == "" <==> forall j :: 0 <= j < |checks| ==> !Violates(limits, checks[j])
  {
    SpacedEmpty(Flagged(limits, checks));
    if Flagged(limits, checks) != [] {
      var k := Flagged(limits, checks)[0];
      FlaggedMembers(limits, checks, k);
    } else {
      forall j | 0 <= j < |checks| ensures !Violates(limits, checks[j]) {
        FlaggedMembers(limits, checks, checks[j].key);
      }
    }
  }

  /** The same for the two- and four-check lists the components use, spelled
      out check by check. */
  lemma WarnTextListed(limits: Limits, checks: seq<Check>)
    ensures |checks| == 2 ==>
              (WarnText(limits, checks) == "" <==> !Violates(limits, checks[0]) && !Violates(limits, checks[1]))
    ensures |checks| == 4 ==>
              (WarnText(limits, checks) == "" <==>
                 !Violates(limits, checks[0]) && !Violates(limits, checks[1])
                 && !Violates(limits, checks[2]) && !Violates(limits, checks[3]))
  {
    WarnTextEmpty(limits, checks);
  }

  /** The loop that appends `key + " "` for every violating check. */
  method GetWarns(limits: Limits, checks: seq<Check>) returns (warn: string)
    ensures warn == WarnText(limits, checks)
  {
    warn := "";
    var j := 0;
    while j < |checks|
      invariant 0 <= j <= |checks|
      invariant warn == WarnText(limits, checks[..j])
    {
      var lim := GetOpt(limits, checks[j].key, DefaultRange);
      ghost var before := Flagged(limits, checks[..j]);
      assert checks[..j + 1][..j] == checks[..j];
      assert Flagged(limits, checks[..j + 1])
          == before + (if Violates(limits, checks[j]) then [checks[j].key] else []);
      if Abs(checks[j].value) > Abs(lim.hi) || Abs(checks[j].value) < Abs(lim.lo) {
        var after := before + [checks[j].key];
        assert after[..|after| - 1] == before && after[|after| - 1] == checks[j].key;
        assert Spaced(after) == Spaced(before) + checks[j].key + " ";
        warn := warn + checks[j].key + " ";
      } else {
        assert before + [] == before;
      }
      j := j + 1;
    }
    assert checks[..j] == checks;
  }

  /** The quantities a component checks; `None` when a load with phase
      overrides is asked about a phase it does not list. */
  function WarnChecks(c: Component, vi: real, vo: real, ii: real, io: real, phase: string): (r: Option<seq<Check>>)
    ensures r.None? <==> c.IsLoad() && |c.phaseLoads| > 0 && phase != NoPhase && phase !in c.phaseLoads
    ensures r.Some? ==> Check("ii", ii) in r.value
    ensures c.Source? ==> r == Some([Check("ii", ii), Check("io", io)])
    ensures c.IsLoad() && r.Some? ==> r.value == [Check("vi", vi), Check("ii", ii)]
    ensures !c.Source? && !c.IsLoad() ==>
              r == Some([Check("vi", vi), Check("vo", vo), Check("ii", ii), Check("io", io)])
    ensures r.Some? ==> forall ch :: ch in r.value ==>
      ch == Check("vi", vi) || ch == Check("vo", vo) || ch == Check("ii", ii) || ch == Check("io", io)
  {
    if c.Source? then Some([Check("ii", ii), Check("io", io)])
    else if c.IsLoad() then
      if |c.phaseLoads| > 0 && phase != NoPhase && phase !in c.phaseLoads then None
      else Some([Check("vi", vi), Check("ii", ii)])
    else Some([Check("vi", vi), Check("vo", vo), Check("ii", ii), Check("io", io)])
  }

  /** The warning text of one row: nothing when the component checks
      nothing in this phase; otherwise empty exactly when none of the
      quantities its kind checks lies outside its limit. */
  function SolveWarns(c: Component, vi: real, vo: real, ii: real, io: real, phase: string): (w: string)
    ensures WarnChecks(c, vi, vo, ii, io, phase).None? ==> w == ""
    ensures c.Source? ==>
              (w == "" <==> !Violates(c.limits, Check("ii", ii)) && !Violates(c.limits, Check("io", io)))
    ensures c.IsLoad() && WarnChecks(c, vi, vo, ii, io, phase).Some? ==>
              (w == "" <==> !Violates(c.limits, Check("vi", vi)) && !Violates(c.limits, Check("ii", ii)))
    ensures !c.Source? && !c.IsLoad() ==>
              (w == "" <==> !Violates(c.limits, Check("vi", vi)) && !Violates(c.limits, Check("vo", vo))
                            && !Violates(c.limits, Check("ii", ii)) && !Violates(c.limits, Check("io", io)))
  {
    match WarnChecks(c, vi, vo, ii, io, phase)
    case None => ""
    case Some(checks) =>
      WarnTextListed(c.limits, checks);
      WarnText(c.limits, checks)
  }

  /** A row carries no warning exactly when the component checks nothing in
      this phase or every checked value lies within its limit. */
  lemma SolveWarnsEmpty(c: Component, vi: real, vo: real, ii: real, io: real, phase: string)
    ensures SolveWarns(c, vi, vo, ii, io, phase) == "" <==>
              (WarnChecks(c, vi, vo, ii, io, phase).None? ||
               forall ch :: ch in WarnChecks(c, vi, vo, ii, io, phase).value ==> !Violates(c.limits, ch))
  {
    match WarnChecks(c, vi, vo, ii, io, phase)
    case None =>
    case Some(checks) =>
      WarnTextEmpty(c.limits, checks);
  }

  // ---------------------------------------------------------------------------
  // Properties of the rules

  /** A source never reports an efficiency outside [0, 100], and its input
      power is its output power plus the series-resistance loss. */
  lemma SourceEfficiencyBounded(c: Component, vi: real, vo: real, ii: real, io: real, phase: string)
    requires c.Source? && WellFormed(c)
    ensures SolvePwrLoss(c, vi, vo, ii, io, phase).pwr == Abs(vo * io) + c.rs * io * io
    ensures SolvePwrLoss(c, vi, vo, ii, io, phase).loss == c.rs * io * io
    ensures SolvePwrLoss(c, vi, vo, ii, io, phase).loss >= 0.0
    ensures 0.0 <= SolvePwrLoss(c, vi, vo, ii, io, phase).eff <= 100.0
    ensures var ipwr := Abs(vo * io) + c.rs * io * io;
            && (ipwr == 0.0 ==> SolvePwrLoss(c, vi, vo, ii, io, phase).eff == 100.0)
            && (ipwr > 0.0 ==> SolvePwrLoss(c, vi, vo, ii, io, phase).eff * ipwr == 100.0 * Abs(vo * io))
  {
    var opwr := Abs(vo * io);
    assert io * io >= 0.0;
    var loss := c.rs * (io * io);
    assert loss >= 0.0;
    var ipwr := opwr + loss;
    if ipwr > 0.0 {
      var q := opwr / ipwr;
      assert q * ipwr == opwr;
      assert 0.0 <= opwr <= ipwr;
      assert 0.0 <= q <= 1.0;
      assert GetEff(ipwr, opwr, 100.0) == 100.0 * Abs(q);
    }
  }

  /** Loads: no output voltage, no current without input voltage, no loss
      and a fixed 100% efficiency. */
  lemma LoadRules(c: Component, vi: real, vo: real, ii: real, io: real, phase: string)
    requires c.IsLoad() && WellFormed(c) && InCurrDefined(c, phase)
    ensures SolveOutVolt(c, vi, ii, io, phase) == 0.0
    ensures vi == 0.0 ==> SolveInCurr(c, vi, vo, io, phase) == 0.0
    ensures SolvePwrLoss(c, vi, vo, ii, io, phase) == PwrLoss(Abs(vi * ii), 0.0, 100.0)
    ensures InitOutVoltage(c, phase) == 0.0
  {
  }

  /** The current a load draws from a non-zero input voltage, by phase. */
  lemma LoadCurrentByPhase(c: Component, vi: real, vo: real, io: real, phase: string)
    requires c.PLoad? || c.ILoad?
    requires vi != 0.0
    ensures var base := if c.PLoad? then c.pwr else c.ii;
            var standby := if c.PLoad? then c.pwrs else c.iis;
            var x := if phase == NoPhase || c.phaseLoads == map[] then base
                     else if phase !in c.phaseLoads then standby
                     else c.phaseLoads[phase];
            SolveInCurr(c, vi, vo, io, phase) == (if c.PLoad? then x / Abs(vi) else Abs(x))
  {
  }
  /** A resistive load draws abs(vi) over the resistance it uses in the
      phase: a listed phase's override, otherwise rs, with no standby value. */
  lemma RLoadCurrent(c: Component, vi: real, vo: real, io: real, phase: string)
    requires c.RLoad? && InCurrDefined(c, phase)
    ensures var r := if phase != NoPhase && phase in c.phaseLoads then c.phaseLoads[phase] else c.rs;
            SolveInCurr(c, vi, vo, io, phase) * r == Abs(vi)
  {
  }


  /** A switched-off converter or regulator outputs nothing, draws its
      standby current, and dissipates that current times its input voltage. */
  lemma InactiveRegulator(c: Component, vi: real, vo: real, ii: real, io: real, phase: string)
    requires c.Converter? || c.LinReg?
    requires Inactive(c.activePhases, phase)
    ensures InitOutVoltage(c, phase) == 0.0 && InitInCurrent(c, phase) == c.iis
    ensures SolveOutVolt(c, vi, ii, io, phase) == 0.0
    ensures vi != 0.0 ==> SolveInCurr(c, vi, vo, io, phase) == c.iis
    ensures SolvePwrLoss(c, vi, vo, ii, io, phase) == PwrLoss(0.0, Abs(c.iis * vi), 0.0)
  {
    InactiveRegulatorLoss(c, vi, vo, ii, io, phase);
  }

  /** The loss half of `InactiveRegulator`. */
  lemma InactiveRegulatorLoss(c: Component, vi: real, vo: real, ii: real, io: real, phase: string)
    requires c.Converter? || c.LinReg?
    requires Inactive(c.activePhases, phase)
    ensures SolvePwrLoss(c, vi, vo, ii, io, phase) == PwrLoss(0.0, Abs(c.iis * vi), 0.0)
  {
  }

  /** An active converter or regulator in the default phase outputs its set
      voltage (the regulator: clamped by the dropout) and draws its quiescent
      current on top of its load. */
  lemma ActiveRegulatorDefaultPhase(c: Component)
    requires c.Converter? || c.LinReg?
    ensures !Inactive(c.activePhases, NoPhase)
    ensures InitOutVoltage(c, NoPhase) == c.vo && InitInCurrent(c, NoPhase) == c.iq
  {
  }

  /** The regulator's output has its set voltage's sign and never exceeds it
      in magnitude; with enough headroom it is exactly the set voltage. */
  lemma LinRegOutputBounded(c: Component, vi: real, ii: real, io: real, phase: string)
    requires c.LinReg? && WellFormed(c)
    ensures var v := SolveOutVolt(c, vi, ii, io, phase);
            Abs(v) <= Abs(c.vo) && (c.vo >= 0.0 ==> v >= 0.0) && (c.vo < 0.0 ==> v <= 0.0)
    ensures !Inactive(c.activePhases, phase) && Abs(vi) - c.vdrop >= Abs(c.vo) ==>
            SolveOutVolt(c, vi, ii, io, phase) == c.vo
    ensures !Inactive(c.activePhases, phase) && Abs(vi) - c.vdrop < Abs(c.vo) ==>
            Abs(SolveOutVolt(c, vi, ii, io, phase)) == Max(Abs(vi) - c.vdrop, 0.0)
  {
  }

  /** An active converter draws its quiescent current plus the output power
      divided by efficiency and input voltage, and nothing from a zero or
      negative input voltage. */
  lemma ConverterInputCurrent(c: Component, vi: real, vo: real, io: real, phase: string)
    requires c.Converter? && WellFormed(c) && !Inactive(c.activePhases, phase)
    ensures vi > 0.0 ==> SolveInCurr(c, vi, vo, io, phase) >= c.iq
    ensures vi > 0.0 ==> (SolveInCurr(c, vi, vo, io, phase) - c.iq) * (c.eff * vi) == Abs(vo * io)
    ensures vi <= 0.0 ==> SolveInCurr(c, vi, vo, io, phase) == 0.0
  {
    if vi > 0.0 {
      var ve := c.eff * vi;
      assert ve > 0.0;
      var q := vo * io / ve;
      assert q * ve == vo * io;
      assert Abs(q) * ve == Abs(vo * io);
    } else {
      assert c.eff * vi <= 0.0;
    }
  }

  /** A series loss passes its input current through and drops
      `rs * io + vdrop` towards zero from a non-zero input voltage. */
  lemma LossRules(c: Component, vi: real, vo: real, ii: real, io: real, phase: string)
    requires c.Loss?
    ensures vi == 0.0 ==> SolveOutVolt(c, vi, ii, io, phase) == 0.0 && SolveInCurr(c, vi, vo, io, phase) == 0.0
    ensures vi > 0.0 ==> SolveOutVolt(c, vi, ii, io, phase) == vi - (c.rs * io + c.vdrop)
    ensures vi < 0.0 ==> SolveOutVolt(c, vi, ii, io, phase) == vi + (c.rs * io + c.vdrop)
    ensures vi != 0.0 ==> SolveInCurr(c, vi, vo, io, phase) == io
  {
  }

  /** A source only ever warns about its input and output current. */
  lemma SourceWarnKeys(c: Component, vi: real, vo: real, ii: real, io: real, phase: string, k: string)
    requires c.Source?
    ensures k in Flagged(c.limits, WarnChecks(c, vi, vo, ii, io, phase).value) ==> k == "ii" || k == "io"
  {
    FlaggedMembers(c.limits, [Check("ii", ii), Check("io", io)], k);
  }

  /** A load with phase overrides stays silent in a phase it does not list. */
  lemma LoadSilentInUnlistedPhase(c: Component, vi: real, vo: real, ii: real, io: real, phase: string)
    requires c.IsLoad() && c.phaseLoads != map[] && phase != NoPhase && phase !in c.phaseLoads
    ensures SolveWarns(c, vi, vo, ii, io, phase) == ""
  {
  }

  /** A series loss reports no power of its own and a non-negative loss;
      its efficiency is the output power as a percentage of the input power,
      and 0 when no power goes in. */
  lemma LossPowerReport(c: Component, vi: real, vo: real, ii: real, io: real, phase: string)
    requires c.Loss?
    ensures var pl := SolvePwrLoss(c, vi, vo, ii, io, phase);
            && pl.pwr == 0.0 && pl.loss >= 0.0 && pl.eff >= 0.0
            && pl.loss == Abs(c.rs * ii * ii + c.vdrop * ii)
            && (Abs(vi * ii) > 0.0 ==> pl.eff * Abs(vi * ii) == 100.0 * Abs(vo * io))
            && (Abs(vi * ii) == 0.0 ==> pl.eff == 0.0)
  {
    var e := GetEff(Abs(vi * ii), Abs(vo * io), 0.0);
    assert SolvePwrLoss(c, vi, vo, ii, io, phase).eff == e;
  }

  /** A converter or regulator reports no power of its own; its efficiency
      is the input power less the loss, as a percentage of the input power,
      and 0 when no power goes in (a switched-off one takes none). */
  lemma RegulatorPowerReport(c: Component, vi: real, vo: real, ii: real, io: real, phase: string)
    requires c.Converter? || c.LinReg?
    ensures var pl := SolvePwrLoss(c, vi, vo, ii, io, phase);
            var ipwr := if Inactive(c.activePhases, phase) then 0.0 else Abs(vi * ii);
            && pl.pwr == 0.0 && pl.eff >= 0.0
            && (ipwr > 0.0 ==> pl.eff * ipwr == 100.0 * Abs(ipwr - pl.loss))
            && (ipwr == 0.0 ==> pl.eff == 0.0)
  {
    var pl := SolvePwrLoss(c, vi, vo, ii, io, phase);
    var ipwr := if Inactive(c.activePhases, phase) then 0.0 else Abs(vi * ii);
    assert pl.eff == GetEff(ipwr, ipwr - pl.loss, 0.0);
  }

  /** A regulator's loss: the standby loss when switched off in the phase;
      otherwise the converter's quiescent plus conversion loss, or the linear
      regulator's headroom times output current plus quiescent loss. */
  lemma RegulatorLossReport(c: Component, vi: real, vo: real, ii: real, io: real, phase: string)
    requires c.Converter? || c.LinReg?
    ensures Inactive(c.activePhases, phase) ==>
              SolvePwrLoss(c, vi, vo, ii, io, phase).loss == Abs(c.iis * vi)
    ensures c.Converter? && !Inactive(c.activePhases, phase) ==>
              SolvePwrLoss(c, vi, vo, ii, io, phase).loss == Abs(c.iq * vi + (ii - c.iq) * vi * (1.0 - c.eff))
    ensures c.LinReg? && !Inactive(c.activePhases, phase) ==>
              SolvePwrLoss(c, vi, vo, ii, io, phase).loss == (Abs(vi) - Abs(vo)) * io + Abs(vi) * c.iq
  {
    var off := Inactive(c.activePhases, phase);
    if c.Converter? {
      assert SolvePwrLoss(c, vi, vo, ii, io, phase) == ConverterPwrLoss(c.eff, c.iq, c.iis, off, vi, ii);
    } else {
      assert SolvePwrLoss(c, vi, vo, ii, io, phase) == LinRegPwrLoss(c.iq, c.iis, off, vi, vo, ii, io);
    }
  }
}
