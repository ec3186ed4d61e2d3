/**
 * The pipeline controller of src/aurea_core.py: the symbolic pressure monitor
 * and the part of `AureaCore.process_input` that decides what happens to an
 * input — the suspended short-circuit, the routing of failed claims into the
 * three suspension systems, scar formation, and the reflex responses that
 * block output or suspend processing — together with `resume_processing`.
 *
 * Clock readings are microsecond counts supplied by the caller.  The richer
 * EchoNet verdict the controller consumes and the answers of the reflex grid
 * are inputs of `ProcessInput`.
 */
module Aurea {
  import opened Wrappers
  import opened Records
  import opened Strings
  import SuspensionBase
  import ColdSuspension
  import VeiledThreads
  import BlackSpheres
  import ScarLedger
  import DoctrineLedger
  import EchoNets
  import Perception

  const MicrosPerSecond: int := 1000000
  const SecondsPerDay: int := 86400
  const RecentSeconds: int := 60
  const HistoryLimit: nat := 100
  const RecentCount: nat := 20
  const CascadeThreshold: real := 0.85
  const DensityLimit: nat := 50

  // ---------------------------------------------------------------------------
  // The recent-event window.

  /**
   * `(now - stamped).seconds` as the source writes it: the seconds field of a
   * Python timedelta, which counts whole seconds modulo one day.
   */
  function SecondsField(now: int, stamped: int): (s: int)
    ensures 0 <= s < SecondsPerDay
  {
    ((now - stamped) / MicrosPerSecond) % SecondsPerDay
  }

  /** The recency test as written: the seconds field is below 60. */
  predicate RecentAsWritten(now: int, stamped: int)
  {
    SecondsField(now, stamped) < RecentSeconds
  }

  /**
   * The written test counts an event one day and five seconds old as recent,
   * while an event 100 seconds old is not.
   */
  lemma DayOldEventCountsAsRecent(now: int)
    ensures RecentAsWritten(now, now - (SecondsPerDay + 5) * MicrosPerSecond)
    ensures !RecentAsWritten(now, now - 100 * MicrosPerSecond)
  {
    var d := (SecondsPerDay + 5) * MicrosPerSecond;
    assert now - (now - d) == d;
    assert d / MicrosPerSecond == SecondsPerDay + 5;
    assert (now - (now - 100 * MicrosPerSecond)) / MicrosPerSecond == 100;
  }

  /** The recency test the model uses: fewer than 60 seconds have elapsed. */
  predicate IsRecent(now: int, stamped: int)
  {
    now - stamped < RecentSeconds * MicrosPerSecond
  }

  /**
   * Within a day the two tests agree; beyond it only the corrected one keeps
   * rejecting events older than a minute.
   */
  lemma RecentAgreesWithinDay(now: int, stamped: int)
    requires 0 <= now - stamped < SecondsPerDay * MicrosPerSecond
    ensures IsRecent(now, stamped) <==> RecentAsWritten(now, stamped)
  {
    var q := (now - stamped) / MicrosPerSecond;
    assert 0 <= q < SecondsPerDay;
    assert q % SecondsPerDay == q;
    assert q * MicrosPerSecond <= now - stamped < (q + 1) * MicrosPerSecond;
  }

  /** An event a minute old or older is never recent, however old it is. */
  lemma OldEventsNeverRecent(now: int, stamped: int)
    requires now - stamped >= RecentSeconds * MicrosPerSecond
    ensures !IsRecent(now, stamped)
  {
  }

  /** `s[-n:]`: the last n elements, or all of them. */
  function Last<T>(s: seq<T>, n: nat): (r: seq<T>)
    ensures |r| == if |s| < n then |s| else n
    ensures r == s[|s| - |r|..]
  {
    if |s| <= n then s else s[|s| - n..]
  }

  // ---------------------------------------------------------------------------
  // The pressure monitor.

  datatype PressureEvent = PressureEvent(timestamp: int, source: string, level: real, metadata: map<string, string>)

  function Level(e: PressureEvent): real
  {
    e.level
  }

  /** The mean level of the events, 0 for none. */
  function Mean(events: seq<PressureEvent>): (r: real)
    ensures events == [] ==> r == 0.0
    ensures events != [] ==> r * |events| as real == SumOf(events, Level)
  {
    if events == [] then 0.0 else SumOf(events, Level) / |events| as real
  }

  /** A sum of levels each at most hi is at most hi per event. */
  lemma {:induction false} SumAtMost(events: seq<PressureEvent>, hi: real)
    requires forall e :: e in events ==> e.level <= hi
    ensures SumOf(events, Level) <= |events| as real * hi
  {
    if events != [] {
      SumAtMost(events[1..], hi);
      assert events[0] in events;
    }
  }

  /** A sum of levels each at least lo is at least lo per event. */
  lemma {:induction false} SumAtLeast(events: seq<PressureEvent>, lo: real)
    requires forall e :: e in events ==> lo <= e.level
    ensures |events| as real * lo <= SumOf(events, Level)
  {
    if events != [] {
      SumAtLeast(events[1..], lo);
      assert events[0] in events;
    }
  }

  class SymbolicPressureMonitor {
    var pressureHistory: seq<PressureEvent>
    var coherenceHistory: seq<real>
    const cascadeThreshold: real

    ghost predicate Valid()
      reads this
    {
      |pressureHistory| <= HistoryLimit && cascadeThreshold == CascadeThreshold
    }

    constructor ()
      ensures Valid() && pressureHistory == [] && coherenceHistory == []
    {
      pressureHistory := [];
      coherenceHistory := [];
      cascadeThreshold := CascadeThreshold;
    }

    /** `record_pressure`: the event is appended, and the oldest dropped past 100 events. */
    method RecordPressure(source: string, level: real, metadata: map<string, string>, now: int)
      requires Valid()
      modifies this
      ensures Valid()
      ensures pressureHistory == Last(old(pressureHistory) + [PressureEvent(now, source, level, metadata)], HistoryLimit)
      ensures pressureHistory[|pressureHistory| - 1] == PressureEvent(now, source, level, metadata)
      ensures |old(pressureHistory)| < HistoryLimit ==> |pressureHistory| == |old(pressureHistory)| + 1
      ensures coherenceHistory == old(coherenceHistory)
    {
      pressureHistory := pressureHistory + [PressureEvent(now, source, level, metadata)];
      if |pressureHistory| > HistoryLimit {
        pressureHistory := pressureHistory[1..];
      }
    }

    /** The events `get_system_pressure` averages: the recent ones among the last 20. */
    function RecentEvents(now: int): (r: seq<PressureEvent>)
      reads this
      ensures |r| <= RecentCount
      ensures forall e :: e in r ==> e in pressureHistory && IsRecent(now, e.timestamp)
      ensures forall k ::
                (0 <= k < |pressureHistory| && |pressureHistory| - RecentCount <= k && IsRecent(now, pressureHistory[k].timestamp))
                ==> pressureHistory[k] in r
    {
      var window := Last(pressureHistory, RecentCount);
      assert forall k :: |pressureHistory| - RecentCount <= k < |pressureHistory| && 0 <= k ==>
        pressureHistory[k] == window[k - (|pressureHistory| - |window|)];
      Filter(window, (e: PressureEvent) => IsRecent(now, e.timestamp))
    }

    /** `get_system_pressure`: the mean level of the recent events, 0 when there are none. */
    function SystemPressure(now: int): (r: real)
      reads this
      ensures pressureHistory == [] ==> r == 0.0
      ensures r == Mean(RecentEvents(now))
    {
      if pressureHistory == [] then 0.0 else Mean(RecentEvents(now))
    }

    /** `check_cascade_risk`. */
    predicate CheckCascadeRisk(now: int)
      reads this
    {
      SystemPressure(now) > cascadeThreshold
    }
  }

  /** Dividing a bound through by a positive count. */
  lemma MeanBelow(p: real, n: real, sum: real, t: real)
    requires n > 0.0 && p * n == sum && sum <= n * t
    ensures p <= t
  {
    assert (t - p) * n == n * t - sum;
  }

  lemma MeanAbove(p: real, n: real, sum: real, t: real)
    requires n > 0.0 && p * n == sum && n * t <= sum
    ensures t <= p
  {
    assert (p - t) * n == sum - n * t;
  }

  /** A mean above a non-negative t needs an event above t. */
  lemma {:induction false} HotMean(events: seq<PressureEvent>, t: real)
    requires t >= 0.0 && Mean(events) > t
    ensures exists e :: e in events && e.level > t
  {
    if forall e :: e in events ==> e.level <= t {
      SumAtMost(events, t);
      if events != [] {
        MeanBelow(Mean(events), |events| as real, SumOf(events, Level), t);
      }
    }
  }

  /** The mean of levels within [lo, hi] lies within [lo, hi]. */
  lemma {:induction false} MeanWithin(events: seq<PressureEvent>, lo: real, hi: real)
    requires events != [] && forall e :: e in events ==> lo <= e.level <= hi
    ensures lo <= Mean(events) <= hi
  {
    var n, m, sum := |events| as real, Mean(events), SumOf(events, Level);
    SumAtMost(events, hi);
    SumAtLeast(events, lo);
    MeanBelow(m, n, sum, hi);
    MeanAbove(m, n, sum, lo);
  }

  /** A cascade risk needs at least one recent event hotter than the threshold. */
  lemma CascadeNeedsHotEvent(m: SymbolicPressureMonitor, now: int)
    requires m.Valid() && m.CheckCascadeRisk(now)
    ensures exists e :: e in m.RecentEvents(now) && e.level > CascadeThreshold
  {
    HotMean(m.RecentEvents(now), CascadeThreshold);
  }

  /** Levels within [lo, hi] keep the system pressure within [lo, hi] whenever something is recent. */
  lemma PressureWithinLevels(m: SymbolicPressureMonitor, now: int, lo: real, hi: real)
    requires forall e :: e in m.pressureHistory ==> lo <= e.level <= hi
    requires m.RecentEvents(now) != []
    ensures lo <= m.SystemPressure(now) <= hi
  {
    MeanWithin(m.RecentEvents(now), lo, hi);
  }

  /** With no history there is no cascade risk. */
  lemma EmptyHistoryIsCalm(m: SymbolicPressureMonitor, now: int)
    requires m.Valid() && m.pressureHistory == []
    ensures !m.CheckCascadeRisk(now)
  {
  }

  // ---------------------------------------------------------------------------
  // Routing a failed claim into a suspension system.

  /** What the richer EchoNet of the pipeline reports about an echo. */
  datatype Collapse = Collapse(passed: bool, reason: string, pressureGenerated: real, pressureType: string, scar: Option<Scar>)

  datatype Route = ToBlackSphere | ToColdSuspension | ToVeiledThread | Unrouted
  {
    /** The routes that end processing with the echo parked. */
    predicate Parks()
    {
      this == ToBlackSphere || this == ToColdSuspension
    }
  }

  /** The self-reference phrases that mark a paradox. */
  predicate SelfReference(rawInput: string)
  {
    Contains(Lower(rawInput), "this statement") || Contains(Lower(rawInput), "i am lying")
  }

  /**
   * The routing bands: a self-referential logical contradiction above 0.9
   * goes to the Black Sphere; any other failure above 0.9 to the archive,
   * except a logical contradiction without the phrase, which goes nowhere;
   * a failure strictly between 0.5 and 0.8 to the Veiled Thread.
   */
  function RouteFor(passed: bool, pressureType: string, pressure: real, rawInput: string): (r: Route)
    ensures r == ToBlackSphere <==>
              !passed && pressureType == "logical_contradiction" && pressure > 0.9 && SelfReference(rawInput)
    ensures r == ToColdSuspension <==> !passed && pressureType != "logical_contradiction" && pressure > 0.9
    ensures r == ToVeiledThread <==> !passed && 0.5 < pressure < 0.8
    ensures passed || pressure <= 0.5 || 0.8 <= pressure <= 0.9 ==> r == Unrouted
  {
    if passed then Unrouted
    else if pressureType == "logical_contradiction" && pressure > 0.9 then
      (if SelfReference(rawInput) then ToBlackSphere else Unrouted)
    else if pressure > 0.9 then ToColdSuspension
    else if 0.5 < pressure < 0.8 then ToVeiledThread
    else Unrouted
  }

  // ---------------------------------------------------------------------------
  // Reflex responses.

  /** A reflex grid answer, reduced to what the controller reads of it. */
  datatype ReflexResponse = ReflexResponse(reflexId: string, action: string, message: string, outputBlocked: bool)

  /** What the controller takes from the responses: the last blocker, how many block, the last cascade message. */
  datatype ReflexVerdict = ReflexVerdict(blockedBy: Option<string>, suppressed: nat, cascade: Option<string>)

  predicate Blocks(x: ReflexResponse)
  {
    x.outputBlocked
  }

  predicate CallsCascade(x: ReflexResponse)
  {
    x.action == "cascade"
  }

  /** The position of the last element satisfying p, found from the back. */
  function LastWhere<T>(s: seq<T>, p: T -> bool): (r: Option<nat>)
    ensures r.None? <==> forall k :: 0 <= k < |s| ==> !p(s[k])
    ensures r.Some? ==> r.value < |s| && p(s[r.value]) && forall j :: r.value < j < |s| ==> !p(s[j])
  {
    if s == [] then None
    else if p(s[|s| - 1]) then Some(|s| - 1)
    else
      var init := s[..|s| - 1];
      assert forall k :: 0 <= k < |init| ==> init[k] == s[k];
      LastWhere(init, p)
  }

  /** The reflex id of the last response that blocks output (see LastBlockerSpec). */
  function LastBlocker(rs: seq<ReflexResponse>): Option<string>
  {
    match LastWhere(rs, Blocks)
    case None => None
    case Some(k) => Some(rs[k].reflexId)
  }

  /** LastBlocker is nothing exactly when no response blocks, and otherwise the id of the last blocker. */
  lemma LastBlockerSpec(rs: seq<ReflexResponse>)
    ensures LastBlocker(rs).None? <==> forall k :: 0 <= k < |rs| ==> !rs[k].outputBlocked
    ensures LastBlocker(rs).Some? ==>
      exists k :: 0 <= k < |rs| && rs[k].outputBlocked && rs[k].reflexId == LastBlocker(rs).value &&
                  forall j :: k < j < |rs| ==> !rs[j].outputBlocked
  {
    var w := LastWhere(rs, Blocks);
    if w.Some? {
      assert rs[w.value].outputBlocked && rs[w.value].reflexId == LastBlocker(rs).value;
    }
  }

  /** The message of the last response that calls for a cascade suspension (see LastCascadeSpec). */
  function LastCascade(rs: seq<ReflexResponse>): Option<string>
  {
    match LastWhere(rs, CallsCascade)
    case None => None
    case Some(k) => Some(rs[k].message)
  }

  /** LastCascade is nothing exactly when no response calls a cascade, and otherwise the last such message. */
  lemma LastCascadeSpec(rs: seq<ReflexResponse>)
    ensures LastCascade(rs).None? <==> forall k :: 0 <= k < |rs| ==> rs[k].action != "cascade"
    ensures LastCascade(rs).Some? ==>
      exists k :: 0 <= k < |rs| && rs[k].action == "cascade" && rs[k].message == LastCascade(rs).value &&
                  forall j :: k < j < |rs| ==> rs[j].action != "cascade"
  {
    var w := LastWhere(rs, CallsCascade);
    if w.Some? {
      assert rs[w.value].action == "cascade" && rs[w.value].message == LastCascade(rs).value;
    }
  }

  /** The responses read in order, as step 6 of `process_input` does. */
  function Verdict(rs: seq<ReflexResponse>): ReflexVerdict
  {
    ReflexVerdict(LastBlocker(rs), |Filter(rs, Blocks)|, LastCascade(rs))
  }

  /** The step-6 loop over the responses. */
  method ScanResponses(rs: seq<ReflexResponse>) returns (v: ReflexVerdict)
    ensures v == Verdict(rs)
  {
    v := ReflexVerdict(None, 0, None);
    for i := 0 to |rs|
      invariant v == Verdict(rs[..i])
    {
      assert rs[..i + 1][..i] == rs[..i];
      var x := rs[i];
      FilterAppend(rs[..i], x, Blocks);
      assert rs[..i + 1] == rs[..i] + [x];
      if x.outputBlocked {
        v := v.(blockedBy := Some(x.reflexId), suppressed := v.suppressed + 1);
      }
      if x.action == "cascade" {
        v := v.(cascade := Some(x.message));
      }
    }
    assert rs[..|rs|] == rs;
  }

  // ---------------------------------------------------------------------------
  // The controller.

  /** The message `process_input` ends with. */
  datatype Output =
    | SuspendedNotice(reason: string)
    | ParadoxSuspended(entryId: string)
    | Quarantined(entryId: string)
    | FermentingNotice(entryId: string)
    | BlockedBy(reflexId: string)
    | EchoProcessed(content: string, shownPressure: Option<real>)
    | CollapseDetected(reason: string, shownPressure: Option<real>)
    | Failure(message: string)

  datatype Stats = Stats(echoesProcessed: nat, scarsFormed: nat, reflexesTriggered: nat, outputsSuppressed: nat, cascadesPrevented: nat)

  /**
   * The counters after steps 4 to 8 of `process_input`: one more prevented
   * cascade when the cascade check fired, every response triggered, every
   * blocking one suppressing output, one more scar for a failed claim.
   */
  /** Two counters that agree field by field with the tally are the tally. */
  lemma TalliedFields(s: Stats, t: Stats, responses: seq<ReflexResponse>, cascadeRisk: bool, scarFormed: bool)
    requires t.echoesProcessed == s.echoesProcessed
    requires t.cascadesPrevented == s.cascadesPrevented + (if cascadeRisk then 1 else 0)
    requires t.reflexesTriggered == s.reflexesTriggered + |responses|
    requires t.outputsSuppressed == s.outputsSuppressed + |Filter(responses, Blocks)|
    requires t.scarsFormed == s.scarsFormed + (if scarFormed then 1 else 0)
    ensures t == Tallied(s, responses, cascadeRisk, scarFormed)
  {
  }

  function Tallied(s: Stats, responses: seq<ReflexResponse>, cascadeRisk: bool, scarFormed: bool): Stats
  {
    s.(cascadesPrevented := s.cascadesPrevented + (if cascadeRisk then 1 else 0),
       reflexesTriggered := s.reflexesTriggered + |responses|,
       outputsSuppressed := s.outputsSuppressed + |Filter(responses, Blocks)|,
       scarsFormed := s.scarsFormed + (if scarFormed then 1 else 0))
  }

  datatype ProcessResult = ProcessResult(
    input: string,
    echo: Option<Echo>,
    collapse: Option<Collapse>,
    scarFormed: Option<Scar>,
    reflexResponses: seq<ReflexResponse>,
    output: Option<Output>,
    outputBlocked: bool,
    pressureGenerated: real,
    errors: seq<string>)

  /** The pressure shown after the final message: only above 0.5. */
  function ShownPressure(p: real): (r: Option<real>)
    ensures r.Some? <==> p > 0.5
  {
    if p > 0.5 then Some(p) else None
  }

  /** `collapse_result.scar or collapse_test(echo)`. */
  function FormedScar(collapse: Collapse, echo: Echo, stamp: string, now: int): (s: Scar)
    ensures collapse.scar.None? ==> ScarLedger.IsActive(s) && s.origin == echo.id
  {
    if collapse.scar.Some? then collapse.scar.value else EchoNets.CollapseTest(echo, stamp, now)
  }

  /**
   * The reflex responses steps 4 and 5 collect: the cascade responses when the
   * monitor sees a cascade risk, then the density responses when a new scar
   * leaves more than 50 active.
   */
  function Triggered(cascadeRisk: bool, dense: bool, cascadeResponses: seq<ReflexResponse>,
                     densityResponses: seq<ReflexResponse>): seq<ReflexResponse>
  {
    (if cascadeRisk then cascadeResponses else []) + (if dense then densityResponses else [])
  }

  /**
   * The message step 7 leaves: the last blocking reflex, or else what became
   * of the claim, with its pressure shown above 0.5.  A Veiled Thread notice
   * never survives to this point.
   */
  function FinalOutput(echo: Echo, collapse: Collapse, blockedBy: Option<string>): (o: Output)
    ensures blockedBy.Some? <==> o.BlockedBy?
    ensures blockedBy.None? ==> (o.EchoProcessed? <==> collapse.passed)
    ensures !o.FermentingNotice? && !o.SuspendedNotice?
  {
    if blockedBy.Some? then BlockedBy(blockedBy.value)
    else if collapse.passed then EchoProcessed(echo.content, ShownPressure(collapse.pressureGenerated))
    else CollapseDetected(collapse.reason, ShownPressure(collapse.pressureGenerated))
  }

  /** A seed doctrine as `_create_seed_doctrines` builds it. */
  function SeedDoctrine(id: string, name: string, now: int): Doctrine
  {
    Doctrine(id, name, [], [], "active", now, None, "Foundational doctrine", [], true)
  }

  function SeedDoctrines(now: int): (ds: seq<Doctrine>)
    ensures |ds| == 3 && forall d :: d in ds ==> d.isSeed && d.status == "active"
  {
    [SeedDoctrine("AVT.001", "Truth survives collapse", now),
     SeedDoctrine("AVT.002", "Scars shape future collapse", now),
     SeedDoctrine("AVT.003", "Contradiction without resolution is suspension", now)]
  }

  function BlackSphereFullMessage(capacity: nat): string
  {
    "Black Sphere at capacity (" + NatToString(capacity) + "). Cannot suspend more paradoxes."
  }

  /** What steps 1 and 2 of `process_input` leave in the result: the echo, its collapse test and pressure. */
  function Perceived(rawInput: string, echo: Echo, collapse: Collapse): ProcessResult
  {
    ProcessResult(rawInput, Some(echo), Some(collapse), None, [], None, false, collapse.pressureGenerated, [])
  }

  /**
   * The result steps 3 to 8 of `process_input` make of `r0`.  A Cold
   * Suspension echo is quarantined and blocked; a Black Sphere echo is
   * suspended and blocked, or reports the full sphere; any other echo (a
   * Veiled Thread notice is overwritten in step 7) collects the `Triggered`
   * responses, forms its scar when the claim failed, and ends with the
   * last blocker or the step-7 message.  `cascadeRisk` is the monitor's
   * verdict, `dense` whether more than 50 scars are active once the new one
   * is added, `sphereFull` whether the sphere was full before the call.
   */
  function Answered(r0: ProcessResult, route: Route, echo: Echo, collapse: Collapse, now: int, stamp: string,
                    cascadeRisk: bool, dense: bool, cascadeResponses: seq<ReflexResponse>,
                    densityResponses: seq<ReflexResponse>, sphereFull: bool, capacity: nat): (a: ProcessResult)
    ensures a.input == r0.input && a.echo == r0.echo && a.collapse == r0.collapse
    ensures a.pressureGenerated == r0.pressureGenerated
    ensures route.Parks() ==> a.reflexResponses == r0.reflexResponses && a.scarFormed == r0.scarFormed
    ensures a.errors == r0.errors + (if route == ToBlackSphere && sphereFull then [BlackSphereFullMessage(capacity)] else [])
    ensures route.Parks() ==> (a.outputBlocked <==> r0.outputBlocked || !(route == ToBlackSphere && sphereFull))
    ensures a.output.Some? && !a.output.value.FermentingNotice? && !a.output.value.SuspendedNotice?
  {
    match route
    case ToColdSuspension =>
      r0.(output := Some(Quarantined("CSA-" + stamp)), outputBlocked := true)
    case ToBlackSphere =>
      if sphereFull then
        r0.(errors := r0.errors + [BlackSphereFullMessage(capacity)], output := Some(Failure(BlackSphereFullMessage(capacity))))
      else r0.(output := Some(ParadoxSuspended("BS-" + stamp)), outputBlocked := true)
    case _ =>
      var responses := Triggered(cascadeRisk, dense, cascadeResponses, densityResponses);
      r0.(scarFormed := if collapse.passed then r0.scarFormed else Some(FormedScar(collapse, echo, stamp, now)),
          reflexResponses := responses,
          outputBlocked := LastBlocker(responses).Some?,
          output := Some(FinalOutput(echo, collapse, LastBlocker(responses))))
  }

  /**
   * An echo that is not parked ends blocked exactly when some triggered
   * response blocks output, and unblocked it ends with the outcome of its
   * claim; a cascade risk alone adds no responses of its own.
   */
  lemma AnsweredBlocking(r0: ProcessResult, route: Route, echo: Echo, collapse: Collapse, now: int, stamp: string,
                         cascadeRisk: bool, dense: bool, cascadeResponses: seq<ReflexResponse>,
                         densityResponses: seq<ReflexResponse>, sphereFull: bool, capacity: nat)
    requires !route.Parks()
    ensures var a := Answered(r0, route, echo, collapse, now, stamp, cascadeRisk, dense, cascadeResponses, densityResponses, sphereFull, capacity);
      && (a.outputBlocked <==> exists k :: 0 <= k < |a.reflexResponses| && a.reflexResponses[k].outputBlocked)
      && (!a.outputBlocked ==> a.output.value == (if collapse.passed then EchoProcessed(echo.content, ShownPressure(collapse.pressureGenerated))
                                                  else CollapseDetected(collapse.reason, ShownPressure(collapse.pressureGenerated))))
      && (!cascadeRisk && !dense ==> a.reflexResponses == [] && !a.outputBlocked)
  {
    var a := Answered(r0, route, echo, collapse, now, stamp, cascadeRisk, dense, cascadeResponses, densityResponses, sphereFull, capacity);
    LastBlockerSpec(a.reflexResponses);
  }

  /** What `Conclude` makes of a result step 3 only gave a notice is what `Answered` says of the echo. */
  lemma AnsweredOpen(r0: ProcessResult, r1: ProcessResult, r: ProcessResult, route: Route, echo: Echo, collapse: Collapse,
                     now: int, stamp: string, cascadeRisk: bool, dense: bool, cascadeResponses: seq<ReflexResponse>,
                     densityResponses: seq<ReflexResponse>, sphereFull: bool, capacity: nat)
    requires !route.Parks() && r1 == r0.(output := r1.output)
    requires r.reflexResponses == Triggered(cascadeRisk, dense, cascadeResponses, densityResponses)
    requires r.outputBlocked == LastBlocker(r.reflexResponses).Some?
    requires r.output == Some(FinalOutput(echo, collapse, LastBlocker(r.reflexResponses)))
    requires r.scarFormed == (if collapse.passed then r1.scarFormed else Some(FormedScar(collapse, echo, stamp, now)))
    requires r == r1.(scarFormed := r.scarFormed, reflexResponses := r.reflexResponses,
                      outputBlocked := r.outputBlocked, output := r.output)
    ensures r == Answered(r0, route, echo, collapse, now, stamp, cascadeRisk, dense, cascadeResponses, densityResponses, sphereFull, capacity)
  {
  }

  /** `_create_seed_doctrines` on a fresh spine. */
  method SeededSpine(now: int) returns (spine: DoctrineLedger.DoctrineSpine)
    ensures fresh(spine) && spine.doctrines == SeedDoctrines(now)
  {
    spine := new DoctrineLedger.DoctrineSpine();
    spine.AddDoctrine(SeedDoctrine("AVT.001", "Truth survives collapse", now));
    spine.AddDoctrine(SeedDoctrine("AVT.002", "Scars shape future collapse", now));
    spine.AddDoctrine(SeedDoctrine("AVT.003", "Contradiction without resolution is suspension", now));
  }

  // ---------------------------------------------------------------------------
  // The three suspension systems as values, before and after step 3.

  /** What a suspension system holds: its table, capacity, counter and last purge. */
  datatype Table = Table(entries: seq<SuspensionBase.Entry>, capacity: nat, totalSuspended: nat, lastPurge: Option<int>)
  {
    predicate Full()
    {
      |entries| >= capacity
    }

    /** `entries[e.id] = e; total_suspended += 1`. */
    function Stored(e: SuspensionBase.Entry): Table
    {
      this.(entries := SuspensionBase.Put(entries, e), totalSuspended := totalSuspended + 1)
    }
  }

  /** The Cold Suspension archive, the Veiled Thread, the Black Sphere and its families. */
  datatype Suspensions = Suspensions(cold: Table, veiled: Table, sphere: Table,
                                     families: map<string, set<SuspensionBase.EntryId>>)

  function TableOf(system: SuspensionBase.SuspensionSystem): Table
    reads system
  {
    Table(system.entries, system.capacity, system.totalSuspended, system.lastPurge)
  }

  /**
   * Step 3 of `process_input` on values: the echo joins the system its route
   * names, as that system's `suspend` stores it (a full archive first keeps its
   * 30 newest entries, a full thread first drops its stale entries, a full
   * sphere refuses), and the other systems are left as they were.
   */
  function ParkedIn(before: Suspensions, route: Route, echo: Echo, collapse: Collapse, now: int, stamp: string): (after: Suspensions)
    ensures route == ToColdSuspension ==> after == before.(cold := after.cold)
    ensures route == ToVeiledThread ==> after == before.(veiled := after.veiled)
    ensures route == ToBlackSphere ==> after == before.(sphere := after.sphere, families := after.families)
    ensures route == Unrouted ==> after == before
  {
    match route
    case ToColdSuspension =>
      var t := before.cold;
      var kept := if t.Full() then SuspensionBase.AfterPurge(t.entries, ColdSuspension.KeepOnOverflow) else t.entries;
      var purged := if t.Full() && |t.entries| > ColdSuspension.KeepOnOverflow then Some(now) else t.lastPurge;
      var e := ColdSuspension.QuarantineEntry("CSA-" + stamp, echo.content, "pipeline", collapse.pressureGenerated, collapse.reason, now);
      before.(cold := t.(entries := kept, lastPurge := purged).Stored(e))
    case ToVeiledThread =>
      var t := before.veiled;
      var stale := SuspensionBase.IdSet(Filter(t.entries, x => VeiledThreads.Stale(x, VeiledThreads.DefaultPurgeThreshold)));
      var kept := if t.Full() then SuspensionBase.Drop(t.entries, stale) else t.entries;
      var e := VeiledThreads.VeiledEntry("VT-" + stamp, echo.content, "pipeline", collapse.pressureGenerated, "Needs fermentation", now);
      before.(veiled := t.(entries := kept).Stored(e))
    case ToBlackSphere =>
      if before.sphere.Full() then before
      else
        var e := BlackSpheres.ParadoxEntry("BS-" + stamp, echo.content, "pipeline", collapse.pressureGenerated,
                                           "Self-reference paradox", "self_reference", now);
        var members := if "self_reference" in before.families then before.families["self_reference"] else {};
        before.(sphere := before.sphere.Stored(e), families := before.families["self_reference" := members + {e.id}])
    case Unrouted => before
  }

  /**
   * After step 3 the routed system holds the echo under the id the pipeline
   * reports ("CSA-", "VT-" or "BS-" and the stamp) and has counted one more
   * suspension; a full sphere is left as it was.
   */
  lemma ParkedHoldsEcho(before: Suspensions, route: Route, echo: Echo, collapse: Collapse, now: int, stamp: string)
    ensures var after := ParkedIn(before, route, echo, collapse, now, stamp);
      && (route == ToColdSuspension ==>
            (exists e :: e in after.cold.entries && e.id == "CSA-" + stamp && e.content == echo.content)
            && after.cold.totalSuspended == before.cold.totalSuspended + 1)
      && (route == ToVeiledThread ==>
            (exists e :: e in after.veiled.entries && e.id == "VT-" + stamp && e.content == echo.content)
            && after.veiled.totalSuspended == before.veiled.totalSuspended + 1)
      && (route == ToBlackSphere && !before.sphere.Full() ==>
            (exists e :: e in after.sphere.entries && e.id == "BS-" + stamp && e.content == echo.content)
            && "BS-" + stamp in after.families["self_reference"]
            && after.sphere.totalSuspended == before.sphere.totalSuspended + 1)
      && (route == ToBlackSphere && before.sphere.Full() ==> after == before)
  {
    var after := ParkedIn(before, route, echo, collapse, now, stamp);
    match route
    case ToColdSuspension =>
      var e := ColdSuspension.QuarantineEntry("CSA-" + stamp, echo.content, "pipeline", collapse.pressureGenerated, collapse.reason, now);
      StoredHolds(before.cold.entries, e);
      StoredHolds(SuspensionBase.AfterPurge(before.cold.entries, ColdSuspension.KeepOnOverflow), e);
    case ToVeiledThread =>
      var e := VeiledThreads.VeiledEntry("VT-" + stamp, echo.content, "pipeline", collapse.pressureGenerated, "Needs fermentation", now);
      StoredHolds(before.veiled.entries, e);
      StoredHolds(SuspensionBase.Drop(before.veiled.entries,
        SuspensionBase.IdSet(Filter(before.veiled.entries, x => VeiledThreads.Stale(x, VeiledThreads.DefaultPurgeThreshold)))), e);
    case ToBlackSphere =>
      var e := BlackSpheres.ParadoxEntry("BS-" + stamp, echo.content, "pipeline", collapse.pressureGenerated,
                                         "Self-reference paradox", "self_reference", now);
      StoredHolds(before.sphere.entries, e);
    case Unrouted =>
  }

  /** A stored entry is in the table. */
  lemma StoredHolds(es: seq<SuspensionBase.Entry>, e: SuspensionBase.Entry)
    ensures e in SuspensionBase.Put(es, e)
  {
    match SuspensionBase.Find(es, e.id)
    case Some(k) => assert SuspensionBase.Put(es, e)[k] == e;
    case None => assert SuspensionBase.Put(es, e)[|es|] == e;
  }

  class AureaCore {
    const scarCore: ScarLedger.ScarLogicCore
    const doctrineSpine: DoctrineLedger.DoctrineSpine
    const csa: ColdSuspension.CSA
    const veiledThread: VeiledThreads.VeiledThread
    const blackSphere: BlackSpheres.BlackSphere
    const monitor: SymbolicPressureMonitor
    var processingSuspended: bool
    var suspensionReason: string
    var stats: Stats

    ghost predicate Valid()
      reads monitor, csa, csa.system, veiledThread, veiledThread.system, blackSphere, blackSphere.system
    {
      && monitor.Valid() && csa.Valid() && veiledThread.Valid() && blackSphere.Valid()
      && csa.system != veiledThread.system && csa.system != blackSphere.system
      && veiledThread.system != blackSphere.system
    }

    /** A fresh controller with default capacities, seeded with the three foundational doctrines. */
    constructor (now: int)
      ensures Valid()
      ensures fresh(scarCore) && fresh(doctrineSpine) && fresh(monitor)
      ensures fresh(csa) && fresh(csa.system) && fresh(veiledThread) && fresh(veiledThread.system)
      ensures fresh(blackSphere) && fresh(blackSphere.system)
      ensures doctrineSpine.doctrines == SeedDoctrines(now) && scarCore.scars == []
      ensures csa.system.capacity == 50 && veiledThread.system.capacity == 100 && blackSphere.system.capacity == 30
      ensures !processingSuspended && suspensionReason == "" && stats == Stats(0, 0, 0, 0, 0)
    {
      scarCore := new ScarLedger.ScarLogicCore();
      var spine := SeededSpine(now);
      doctrineSpine := spine;
      csa := new ColdSuspension.CSA(50);
      veiledThread := new VeiledThreads.VeiledThread(100);
      blackSphere := new BlackSpheres.BlackSphere(30);
      monitor := new SymbolicPressureMonitor();
      processingSuspended := false;
      suspensionReason := "";
      stats := Stats(0, 0, 0, 0, 0);
    }

    /**
     * Step 5 of `process_input`: a failed claim leaves a scar, the one EchoNet
     * supplied or else the collapse test's, and is counted; `dense` reports
     * whether more than 50 scars are now active.
     */
    method FormScar(echo: Echo, collapse: Collapse, now: int, stamp: string) returns (scar: Option<Scar>, dense: bool)
      requires Valid()
      modifies this, scarCore
      ensures Valid()
      ensures scar == (if collapse.passed then None else Some(FormedScar(collapse, echo, stamp, now)))
      ensures scarCore.scars == old(scarCore.scars) + (if collapse.passed then [] else [scar.value])
      ensures dense <==> !collapse.passed && ScarLedger.ActiveCount(scarCore.scars) > DensityLimit
      ensures stats == old(stats).(scarsFormed := old(stats.scarsFormed) + (if collapse.passed then 0 else 1))
      ensures processingSuspended == old(processingSuspended) && suspensionReason == old(suspensionReason)
    {
      scar, dense := None, false;
      if !collapse.passed {
        var s := FormedScar(collapse, echo, stamp, now);
        scarCore.AddScar(s);
        scar := Some(s);
        stats := stats.(scarsFormed := stats.scarsFormed + 1);
        dense := |scarCore.ActiveScars()| > DensityLimit;
      }
    }

    /**
     * Steps 6 and 8 of `process_input`: every blocking response counts as a
     * suppressed output, the last cascade response suspends processing with
     * its message, and every response counts as a triggered reflex.
     */
    method ApplyReflexes(responses: seq<ReflexResponse>) returns (blockedBy: Option<string>)
      requires Valid()
      modifies this
      ensures Valid()
      ensures blockedBy == LastBlocker(responses)
      ensures stats == old(stats).(
        outputsSuppressed := old(stats.outputsSuppressed) + |Filter(responses, Blocks)|,
        reflexesTriggered := old(stats.reflexesTriggered) + |responses|)
      ensures processingSuspended == (old(processingSuspended) || LastCascade(responses).Some?)
      ensures suspensionReason == if LastCascade(responses).Some? then LastCascade(responses).value else old(suspensionReason)
    {
      var verdict := ScanResponses(responses);
      stats := stats.(outputsSuppressed := stats.outputsSuppressed + verdict.suppressed);
      if verdict.cascade.Some? {
        processingSuspended := true;
        suspensionReason := verdict.cascade.value;
      }
      stats := stats.(reflexesTriggered := stats.reflexesTriggered + |responses|);
      blockedBy := verdict.blockedBy;
    }

    /**
     * Steps 4 to 8 of `process_input`, once the echo was neither parked in the
     * Black Sphere nor quarantined: the outcome of the cascade check
     * (`cascadeRisk`), scar formation, the reflex responses and the final message.
     */
    method Conclude(echo: Echo, collapse: Collapse, cascadeResponses: seq<ReflexResponse>,
                    densityResponses: seq<ReflexResponse>, cascadeRisk: bool, now: int, stamp: string, r0: ProcessResult)
      returns (r: ProcessResult)
      requires Valid()
      modifies this, scarCore
      ensures Valid()
      ensures scarCore.scars == old(scarCore.scars) + (if collapse.passed then [] else [FormedScar(collapse, echo, stamp, now)])
      ensures r.reflexResponses ==
        Triggered(cascadeRisk, !collapse.passed && ScarLedger.ActiveCount(scarCore.scars) > DensityLimit,
                  cascadeResponses, densityResponses)
      ensures stats == Tallied(old(stats), r.reflexResponses, cascadeRisk, !collapse.passed)
      ensures processingSuspended == (old(processingSuspended) || LastCascade(r.reflexResponses).Some?)
      ensures suspensionReason ==
        (if LastCascade(r.reflexResponses).Some? then LastCascade(r.reflexResponses).value else old(suspensionReason))
      ensures r.outputBlocked == LastBlocker(r.reflexResponses).Some?
      ensures processingSuspended && !old(processingSuspended) ==> LastCascade(r.reflexResponses) == Some(suspensionReason)
      ensures r.output == Some(FinalOutput(echo, collapse, LastBlocker(r.reflexResponses)))
      ensures r == r0.(scarFormed := r.scarFormed, reflexResponses := r.reflexResponses,
                       outputBlocked := r.outputBlocked, output := r.output)
      ensures r.scarFormed == (if collapse.passed then r0.scarFormed else Some(FormedScar(collapse, echo, stamp, now)))
    {
      var responses: seq<ReflexResponse> := if cascadeRisk then cascadeResponses else [];
      ghost var s0 := stats;
      stats := stats.(cascadesPrevented := stats.cascadesPrevented + (if cascadeRisk then 1 else 0));
      var scar, dense := FormScar(echo, collapse, now, stamp);
      if dense {
        responses := responses + densityResponses;
      }
      var blockedBy := ApplyReflexes(responses);
      TalliedFields(s0, stats, responses, cascadeRisk, !collapse.passed);
      r := r0.(scarFormed := if scar.Some? then scar else r0.scarFormed, reflexResponses := responses,
               outputBlocked := blockedBy.Some?, output := Some(FinalOutput(echo, collapse, blockedBy)));
    }

    /** The three suspension systems as values. */
    function Snapshot(): Suspensions
      reads csa.system, veiledThread.system, blackSphere, blackSphere.system
    {
      Suspensions(TableOf(csa.system), TableOf(veiledThread.system), TableOf(blackSphere.system), blackSphere.paradoxFamilies)
    }

    /**
     * Step 3 of `process_input`: the echo goes to the suspension system its
     * route names.  A Black Sphere or Cold Suspension echo ends processing
     * (`parked`); a full Black Sphere reports an error instead; a Veiled Thread
     * echo gets a fermenting notice and carries on.
     */
    method Park(echo: Echo, collapse: Collapse, route: Route, now: int, stamp: string, r0: ProcessResult)
      returns (r: ProcessResult, parked: bool)
      requires Valid() && !r0.outputBlocked && r0.errors == []
      modifies csa.system, veiledThread.system, blackSphere, blackSphere.system
      ensures Valid()
      ensures Snapshot() == ParkedIn(old(Snapshot()), route, echo, collapse, now, stamp)
      ensures parked <==> route.Parks()
      ensures route == ToColdSuspension ==>
        && r.outputBlocked && r.output.Some? && r.output.value.Quarantined?
        && csa.system.totalSuspended == old(csa.system.totalSuspended) + 1
      ensures route == ToBlackSphere ==>
        && (old(blackSphere.system.IsAtCapacity()) <==> r.errors != [])
        && (r.errors == [] <==> r.outputBlocked)
      ensures route == ToVeiledThread ==> r == r0.(output := r.output) && r.output.Some? && r.output.value.FermentingNotice?
      ensures route == Unrouted ==> r == r0
      ensures route == ToColdSuspension ==> r.output == Some(Quarantined("CSA-" + stamp))
      ensures route == ToVeiledThread ==> r.output == Some(FermentingNotice("VT-" + stamp))
      ensures route == ToBlackSphere && r.errors == [] ==> r.output == Some(ParadoxSuspended("BS-" + stamp))
      ensures route == ToBlackSphere && r.errors != [] ==>
        && r.errors == [BlackSphereFullMessage(blackSphere.system.capacity)]
        && r.output == Some(Failure(BlackSphereFullMessage(blackSphere.system.capacity)))
      ensures r == r0.(output := r.output, outputBlocked := r.outputBlocked, errors := r.errors)
      ensures route != ToBlackSphere ==> r.errors == r0.errors
      ensures parked ==> r.output.Some? && !r.output.value.FermentingNotice?
    {
      r, parked := r0, false;
      if route == ToBlackSphere {
        parked := true;
        r := ParkParadox(echo, collapse, now, stamp, r0);
      } else if route == ToColdSuspension {
        parked := true;
        r := ParkQuarantine(echo, collapse, now, stamp, r0);
      } else if route == ToVeiledThread {
        r := ParkVeiled(echo, collapse, now, stamp, r0);
      }
    }

    /** The Black Sphere branch of step 3: suspended and blocked, or an error when the sphere is full. */
    method ParkParadox(echo: Echo, collapse: Collapse, now: int, stamp: string, r0: ProcessResult) returns (r: ProcessResult)
      requires Valid() && !r0.outputBlocked && r0.errors == []
      modifies blackSphere, blackSphere.system
      ensures Valid()
      ensures Snapshot() == ParkedIn(old(Snapshot()), ToBlackSphere, echo, collapse, now, stamp)
      ensures old(blackSphere.system.IsAtCapacity()) ==>
        r == r0.(errors := [BlackSphereFullMessage(blackSphere.system.capacity)],
                 output := Some(Failure(BlackSphereFullMessage(blackSphere.system.capacity))))
      ensures !old(blackSphere.system.IsAtCapacity()) ==>
        r == r0.(output := Some(ParadoxSuspended("BS-" + stamp)), outputBlocked := true)
    {
      var entry := blackSphere.Suspend(echo.content, "pipeline", collapse.pressureGenerated,
                                       "Self-reference paradox", "self_reference", now, stamp);
      if entry.None? {
        var message := BlackSphereFullMessage(blackSphere.system.capacity);
        r := r0.(errors := [message], output := Some(Failure(message)));
      } else {
        r := r0.(output := Some(ParadoxSuspended(entry.value.id)), outputBlocked := true);
      }
    }

    /** The Cold Suspension branch of step 3: the echo is archived, quarantined and blocked. */
    method ParkQuarantine(echo: Echo, collapse: Collapse, now: int, stamp: string, r0: ProcessResult) returns (r: ProcessResult)
      requires Valid()
      modifies csa.system
      ensures Valid()
      ensures Snapshot() == ParkedIn(old(Snapshot()), ToColdSuspension, echo, collapse, now, stamp)
      ensures r == r0.(output := Some(Quarantined("CSA-" + stamp)), outputBlocked := true)
    {
      var entry := csa.Suspend(echo.content, "pipeline", collapse.pressureGenerated, collapse.reason, now, stamp);
      r := r0.(output := Some(Quarantined(entry.id)), outputBlocked := true);
    }

    /** The Veiled Thread branch of step 3: the echo ferments and only a notice is set. */
    method ParkVeiled(echo: Echo, collapse: Collapse, now: int, stamp: string, r0: ProcessResult) returns (r: ProcessResult)
      requires Valid()
      modifies veiledThread.system
      ensures Valid()
      ensures Snapshot() == ParkedIn(old(Snapshot()), ToVeiledThread, echo, collapse, now, stamp)
      ensures r == r0.(output := Some(FermentingNotice("VT-" + stamp)))
    {
      var entry := veiledThread.Suspend(echo.content, "pipeline", collapse.pressureGenerated,
                                        "Needs fermentation", now, stamp);
      r := r0.(output := Some(FermentingNotice(entry.id)));
    }

    /**
     * `process_input`.  While suspended nothing happens but a blocked notice.
     * Otherwise the echo is counted and its pressure recorded; a failed claim
     * in the top bands is parked in the Black Sphere or the archive and the
     * call ends blocked; otherwise `Conclude` forms the scar and reads the
     * reflex responses.
     */
    method ProcessInput(rawInput: string, source: string, collapse: Collapse,
                        cascadeResponses: seq<ReflexResponse>, densityResponses: seq<ReflexResponse>,
                        now: int, stamp: string) returns (r: ProcessResult)
      requires Valid()
      modifies this, monitor, scarCore, csa.system, veiledThread.system, blackSphere, blackSphere.system
      ensures Valid()
      ensures monitor.coherenceHistory == old(monitor.coherenceHistory)
      ensures old(processingSuspended) ==>
        && r == ProcessResult(rawInput, None, None, None, [], Some(SuspendedNotice(old(suspensionReason))), true, 0.0, [])
        && stats == old(stats) && processingSuspended && suspensionReason == old(suspensionReason)
        && monitor.pressureHistory == old(monitor.pressureHistory) && scarCore.scars == old(scarCore.scars)
        && Snapshot() == old(Snapshot())
      ensures !old(processingSuspended) ==>
        r == Answered(Perceived(rawInput, Perception.ProcessInput(rawInput, source, None, stamp, now), collapse),
                      RouteFor(collapse.passed, collapse.pressureType, collapse.pressureGenerated, rawInput),
                      Perception.ProcessInput(rawInput, source, None, stamp, now), collapse, now, stamp, monitor.CheckCascadeRisk(now),
                      !collapse.passed && ScarLedger.ActiveCount(scarCore.scars) > DensityLimit,
                      cascadeResponses, densityResponses, old(blackSphere.system.IsAtCapacity()), blackSphere.system.capacity)
      ensures !old(processingSuspended) ==>
        && stats == (var s := old(stats).(echoesProcessed := old(stats.echoesProcessed) + 1);
                     if RouteFor(collapse.passed, collapse.pressureType, collapse.pressureGenerated, rawInput).Parks() then s
                     else Tallied(s, r.reflexResponses, monitor.CheckCascadeRisk(now), !collapse.passed))
        && processingSuspended == LastCascade(r.reflexResponses).Some?
        && suspensionReason ==
             (if LastCascade(r.reflexResponses).Some? then LastCascade(r.reflexResponses).value else old(suspensionReason))
      ensures !old(processingSuspended) ==>
        Snapshot() == ParkedIn(old(Snapshot()), RouteFor(collapse.passed, collapse.pressureType, collapse.pressureGenerated, rawInput),
                               Perception.ProcessInput(rawInput, source, None, stamp, now), collapse, now, stamp)
      ensures !old(processingSuspended) ==>
        && scarCore.scars == old(scarCore.scars) +
             (if collapse.passed || RouteFor(collapse.passed, collapse.pressureType, collapse.pressureGenerated, rawInput).Parks() then []
              else [FormedScar(collapse, Perception.ProcessInput(rawInput, source, None, stamp, now), stamp, now)])
        && monitor.pressureHistory ==
             Last(old(monitor.pressureHistory) + [PressureEvent(now, "echonet", collapse.pressureGenerated, map["echo_id" := r.echo.value.id])], HistoryLimit)
      ensures !old(processingSuspended) && RouteFor(collapse.passed, collapse.pressureType, collapse.pressureGenerated, rawInput) == ToColdSuspension ==>
        csa.system.totalSuspended == old(csa.system.totalSuspended) + 1
    {
      if processingSuspended {
        r := ProcessResult(rawInput, None, None, None, [], None, false, 0.0, []);
        return r.(outputBlocked := true, output := Some(SuspendedNotice(suspensionReason)));
      }
      var echo := Perception.ProcessInput(rawInput, source, None, stamp, now);
      r := Pipeline(rawInput, echo, collapse, cascadeResponses, densityResponses, now, stamp);
    }

    /**
     * Steps 1 and 2 of `process_input` once the input has become an echo: the
     * echo is counted and its collapse pressure joins the monitor's history.
     */
    method Perceive(rawInput: string, echo: Echo, collapse: Collapse, now: int) returns (r: ProcessResult)
      requires monitor.Valid()
      modifies this, monitor
      ensures monitor.Valid()
      ensures r == Perceived(rawInput, echo, collapse)
      ensures stats == old(stats).(echoesProcessed := old(stats.echoesProcessed) + 1)
      ensures monitor.pressureHistory ==
        Last(old(monitor.pressureHistory) + [PressureEvent(now, "echonet", collapse.pressureGenerated, map["echo_id" := echo.id])], HistoryLimit)
      ensures processingSuspended == old(processingSuspended) && suspensionReason == old(suspensionReason)
      ensures monitor.coherenceHistory == old(monitor.coherenceHistory)
    {
      r := Perceived(rawInput, echo, collapse);
      stats := stats.(echoesProcessed := stats.echoesProcessed + 1);
      monitor.RecordPressure("echonet", collapse.pressureGenerated, map["echo_id" := echo.id], now);
    }

    /** `process_input` once it is not suspended and the input has become `echo`: routing, scars, reflexes. */
    method Pipeline(rawInput: string, echo: Echo, collapse: Collapse,
                    cascadeResponses: seq<ReflexResponse>, densityResponses: seq<ReflexResponse>,
                    now: int, stamp: string) returns (r: ProcessResult)
      requires Valid() && !processingSuspended
      modifies this, monitor, scarCore, csa.system, veiledThread.system, blackSphere, blackSphere.system
      ensures Valid()
      ensures r == Answered(Perceived(rawInput, echo, collapse), RouteFor(collapse.passed, collapse.pressureType, collapse.pressureGenerated, rawInput),
                            echo, collapse, now, stamp, monitor.CheckCascadeRisk(now),
                            !collapse.passed && ScarLedger.ActiveCount(scarCore.scars) > DensityLimit,
                            cascadeResponses, densityResponses, old(blackSphere.system.IsAtCapacity()), blackSphere.system.capacity)
      ensures stats ==
        var s := old(stats).(echoesProcessed := old(stats.echoesProcessed) + 1);
        if RouteFor(collapse.passed, collapse.pressureType, collapse.pressureGenerated, rawInput).Parks() then s
        else Tallied(s, r.reflexResponses, monitor.CheckCascadeRisk(now), !collapse.passed)
      ensures processingSuspended == LastCascade(r.reflexResponses).Some?
      ensures suspensionReason ==
        if LastCascade(r.reflexResponses).Some? then LastCascade(r.reflexResponses).value else old(suspensionReason)
      ensures Snapshot() == ParkedIn(old(Snapshot()), RouteFor(collapse.passed, collapse.pressureType, collapse.pressureGenerated, rawInput),
                                     echo, collapse, now, stamp)
      ensures RouteFor(collapse.passed, collapse.pressureType, collapse.pressureGenerated, rawInput) == ToColdSuspension ==>
        csa.system.totalSuspended == old(csa.system.totalSuspended) + 1
      ensures scarCore.scars == old(scarCore.scars) +
        (if collapse.passed || RouteFor(collapse.passed, collapse.pressureType, collapse.pressureGenerated, rawInput).Parks() then []
         else [FormedScar(collapse, echo, stamp, now)])
      ensures monitor.pressureHistory ==
        Last(old(monitor.pressureHistory) + [PressureEvent(now, "echonet", collapse.pressureGenerated, map["echo_id" := echo.id])], HistoryLimit)
      ensures monitor.coherenceHistory == old(monitor.coherenceHistory)
    {
      r := Perceive(rawInput, echo, collapse, now);
      var route := RouteFor(collapse.passed, collapse.pressureType, collapse.pressureGenerated, rawInput);
      r := Respond(echo, collapse, route, cascadeResponses, densityResponses, now, stamp, r);
    }

    /** Steps 3 to 5 of `process_input` on a perceived echo: it is parked, or its scar and reflexes follow. */
    method Respond(echo: Echo, collapse: Collapse, route: Route,
                   cascadeResponses: seq<ReflexResponse>, densityResponses: seq<ReflexResponse>,
                   now: int, stamp: string, r0: ProcessResult) returns (r: ProcessResult)
      requires Valid() && !processingSuspended && !r0.outputBlocked && r0.errors == [] && r0.reflexResponses == []
      modifies this, scarCore, csa.system, veiledThread.system, blackSphere, blackSphere.system
      ensures Valid()
      ensures stats == if route.Parks() then old(stats)
                       else Tallied(old(stats), r.reflexResponses, monitor.CheckCascadeRisk(now), !collapse.passed)
      ensures processingSuspended == LastCascade(r.reflexResponses).Some?
      ensures suspensionReason ==
        if LastCascade(r.reflexResponses).Some? then LastCascade(r.reflexResponses).value else old(suspensionReason)
      ensures Snapshot() == ParkedIn(old(Snapshot()), route, echo, collapse, now, stamp)
      ensures r == Answered(r0, route, echo, collapse, now, stamp, monitor.CheckCascadeRisk(now),
                            !collapse.passed && ScarLedger.ActiveCount(scarCore.scars) > DensityLimit,
                            cascadeResponses, densityResponses, old(blackSphere.system.IsAtCapacity()), blackSphere.system.capacity)
      ensures route == ToColdSuspension ==> csa.system.totalSuspended == old(csa.system.totalSuspended) + 1
      ensures scarCore.scars ==
        old(scarCore.scars) + (if collapse.passed || route.Parks() then [] else [FormedScar(collapse, echo, stamp, now)])
    {
      if route.Parks() {
        r := RespondParked(echo, collapse, route, cascadeResponses, densityResponses, now, stamp, r0);
      } else {
        r := RespondOpen(echo, collapse, route, cascadeResponses, densityResponses, now, stamp, r0);
      }
    }

    /** Respond for an echo that step 3 parks: it is stored and processing ends. */
    method RespondParked(echo: Echo, collapse: Collapse, route: Route,
                         cascadeResponses: seq<ReflexResponse>, densityResponses: seq<ReflexResponse>,
                         now: int, stamp: string, r0: ProcessResult) returns (r: ProcessResult)
      requires route.Parks()
      requires Valid() && !processingSuspended && !r0.outputBlocked && r0.errors == [] && r0.reflexResponses == []
      modifies this, scarCore, csa.system, veiledThread.system, blackSphere, blackSphere.system
      ensures Valid()
      ensures stats == old(stats)
      ensures !processingSuspended && suspensionReason == old(suspensionReason)
      ensures Snapshot() == ParkedIn(old(Snapshot()), route, echo, collapse, now, stamp)
      ensures r == Answered(r0, route, echo, collapse, now, stamp, monitor.CheckCascadeRisk(now),
                            !collapse.passed && ScarLedger.ActiveCount(scarCore.scars) > DensityLimit,
                            cascadeResponses, densityResponses, old(blackSphere.system.IsAtCapacity()), blackSphere.system.capacity)
      ensures route == ToColdSuspension ==> csa.system.totalSuspended == old(csa.system.totalSuspended) + 1
      ensures scarCore.scars == old(scarCore.scars)
    {
      var parked;
      r, parked := Park(echo, collapse, route, now, stamp, r0);
    }

    /** Respond for an echo step 3 lets through, perhaps after a fermenting notice: steps 4 to 8. */
    method RespondOpen(echo: Echo, collapse: Collapse, route: Route,
                       cascadeResponses: seq<ReflexResponse>, densityResponses: seq<ReflexResponse>,
                       now: int, stamp: string, r0: ProcessResult) returns (r: ProcessResult)
      requires !route.Parks()
      requires Valid() && !processingSuspended && !r0.outputBlocked && r0.errors == [] && r0.reflexResponses == []
      modifies this, scarCore, csa.system, veiledThread.system, blackSphere, blackSphere.system
      ensures Valid()
      ensures stats == Tallied(old(stats), r.reflexResponses, monitor.CheckCascadeRisk(now), !collapse.passed)
      ensures processingSuspended == LastCascade(r.reflexResponses).Some?
      ensures suspensionReason ==
        if LastCascade(r.reflexResponses).Some? then LastCascade(r.reflexResponses).value else old(suspensionReason)
      ensures Snapshot() == ParkedIn(old(Snapshot()), route, echo, collapse, now, stamp)
      ensures r == Answered(r0, route, echo, collapse, now, stamp, monitor.CheckCascadeRisk(now),
                            !collapse.passed && ScarLedger.ActiveCount(scarCore.scars) > DensityLimit,
                            cascadeResponses, densityResponses, old(blackSphere.system.IsAtCapacity()), blackSphere.system.capacity)
      ensures scarCore.scars == old(scarCore.scars) + (if collapse.passed then [] else [FormedScar(collapse, echo, stamp, now)])
    {
      var r1 := r0;
      if route == ToVeiledThread {
        r1 := ParkVeiled(echo, collapse, now, stamp, r0);
      }
      r := Conclude(echo, collapse, cascadeResponses, densityResponses, monitor.CheckCascadeRisk(now), now, stamp, r1);
      AnsweredOpen(r0, r1, r, route, echo, collapse, now, stamp, monitor.CheckCascadeRisk(now),
                   !collapse.passed && ScarLedger.ActiveCount(scarCore.scars) > DensityLimit,
                   cascadeResponses, densityResponses, old(blackSphere.system.IsAtCapacity()), blackSphere.system.capacity);
    }

    /** `resume_processing`: clears the suspension and its reason, and nothing else. */
    method ResumeProcessing()
      modifies this
      ensures !processingSuspended && suspensionReason == ""
      ensures stats == old(stats)
    {
      processingSuspended := false;
      suspensionReason := "";
    }
  }
}
