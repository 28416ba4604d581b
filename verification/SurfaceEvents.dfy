/** What the host is told (www/surface-core.js): the events of types and widgets over every run, a view kept
    by replaying them, the type of a finished asset, and exactly which uploads finish. */
module SurfaceEvents {
  import opened Bytes
  import opened Base64Size
  import opened Surface
  import opened SurfaceRuns

  // ---- registered types ------------------------------------------------------------------------------------

  /** Dependency i is the first that is not there. */
  ghost predicate FirstAbsent(deps: seq<string>, assets: map<string, Asset>, i: int) {
    0 <= i < |deps| && deps[i] !in assets && forall j :: 0 <= j < i ==> deps[j] in assets
  }

  /** A type is refused for the first dependency that is not there, unless that one has the empty name. */
  ghost predicate RefusedFor(deps: seq<string>, assets: map<string, Asset>, dep: string) {
    dep != "" && exists i :: FirstAbsent(deps, assets, i) && deps[i] == dep
  }

  lemma {:induction false} FirstMissingIsAbsent(deps: seq<string>, assets: map<string, Asset>)
    ensures FirstMissing(deps, assets).None? ==> forall i :: 0 <= i < |deps| ==> deps[i] in assets
    ensures FirstMissing(deps, assets).Some? ==>
              exists i :: FirstAbsent(deps, assets, i) && deps[i] == FirstMissing(deps, assets).value
  {
    if deps == [] {
    } else if deps[0] !in assets {
      assert FirstAbsent(deps, assets, 0);
    } else {
      FirstMissingIsAbsent(deps[1..], assets);
      if FirstMissing(deps[1..], assets).Some? {
        var i :| FirstAbsent(deps[1..], assets, i) && deps[1..][i] == FirstMissing(deps[1..], assets).value;
        assert deps[1..][i] == deps[i + 1];
        forall j | 0 <= j < i + 1
          ensures deps[j] in assets
        {
          assert j > 0 ==> deps[j] == deps[1..][j - 1];
        }
        assert FirstAbsent(deps, assets, i + 1);
      }
    }
  }

  lemma RefusedIff(deps: seq<string>, assets: map<string, Asset>, dep: string)
    ensures RefusedFor(deps, assets, dep) <==> dep != "" && FirstMissing(deps, assets) == Some(dep)
  {
    FirstMissingIsAbsent(deps, assets);
    if RefusedFor(deps, assets, dep) {
      var i :| FirstAbsent(deps, assets, i) && deps[i] == dep;
      assert deps[i] !in assets;
      var k :| FirstAbsent(deps, assets, k) && deps[k] == FirstMissing(deps, assets).value;
      assert i == k;
    }
  }

  /** The code and dependencies a type was given by the last registration that was not refused. */
  ghost function TypeOf(capacity: nat, ops: seq<Op>, name: string): Option<WidgetType> {
    if ops == [] then None
    else
      var init, last := ops[..|ops| - 1], ops[|ops| - 1];
      if last.RegisterType? && last.typeName == name &&
         !exists dep :: RefusedFor(last.deps, After(capacity, init).assets, dep)
      then Some(WidgetType(last.code, last.deps))
      else TypeOf(capacity, init, name)
  }

  lemma TypeStep(s: Store, capacity: nat, op: Op, name: string)
    ensures var s' := Apply(s, capacity, op).0;
            if op.RegisterType? && op.typeName == name && !exists dep :: RefusedFor(op.deps, s.assets, dep)
            then name in s'.types && s'.types[name] == WidgetType(op.code, op.deps)
            else (name in s'.types <==> name in s.types) && (name in s.types ==> s'.types[name] == s.types[name])
  {
    if op.RegisterType? {
      var missing := FirstMissing(op.deps, s.assets);
      if missing.Some? {
        RefusedIff(op.deps, s.assets, missing.value);
      }
      forall dep
        ensures RefusedFor(op.deps, s.assets, dep) ==> missing == Some(dep) && dep != ""
      {
        RefusedIff(op.deps, s.assets, dep);
      }
    }
  }

  /** Over every run: the types there are, with their code and dependencies, are those of the op history. */
  lemma {:induction false} TypesAccumulate(capacity: nat, ops: seq<Op>, name: string)
    ensures var s := After(capacity, ops);
            && (name in s.types <==> TypeOf(capacity, ops, name).Some?)
            && (name in s.types ==> TypeOf(capacity, ops, name) == Some(s.types[name]))
  {
    if ops == [] {
    } else {
      var init, op := ops[..|ops| - 1], ops[|ops| - 1];
      TypesAccumulate(capacity, init, name);
      TypeStep(After(capacity, init), capacity, op, name);
    }
  }

  // ---- the events of one op ----------------------------------------------------------------------------------

  ghost function EventsOf(capacity: nat, ops: seq<Op>, op: Op): seq<Event> {
    Apply(After(capacity, ops), capacity, op).1
  }

  /** Over every run: data, a change of properties or a removal reaches the host, once and as it was sent,
      exactly if the widget is live by the op history; otherwise the agent hears of one failure under
      that key, except that a removal of nothing is silent. */
  lemma LiveWidgetsHear(capacity: nat, ops: seq<Op>, key: string, data: string, props: Props)
    ensures EventsOf(capacity, ops, Publish(key, data)) ==
            [if LiveType(capacity, ops, key).Some? then Data(key, data) else Failed(key, NoWidget)]
    ensures EventsOf(capacity, ops, UpdateWidget(key, props)) ==
            [if LiveType(capacity, ops, key).Some? then Update(key, props) else Failed(key, NoWidget)]
    ensures EventsOf(capacity, ops, RemoveWidget(key)) ==
            if LiveType(capacity, ops, key).Some? then [Destroy(key)] else []
  {
    WidgetsAccumulate(capacity, ops, key);
  }

  /** Over every run: a widget is mounted, or tried out, with its properties exactly if its type is registered
      by the op history; otherwise one failure under its key names the type. */
  lemma RegisteredTypesRender(capacity: nat, ops: seq<Op>, key: string, wtype: string, props: Props)
    ensures EventsOf(capacity, ops, AddWidget(key, wtype, props)) ==
            [if TypeOf(capacity, ops, wtype).Some? then Render(key, wtype, props, false) else Failed(key, UnknownType(wtype))]
    ensures EventsOf(capacity, ops, TestWidget(key, wtype, props)) ==
            [if TypeOf(capacity, ops, wtype).Some? then Render(key, wtype, props, true) else Failed(key, UnknownType(wtype))]
  {
    TypesAccumulate(capacity, ops, wtype);
  }

  /** A registration is announced, or refused under its test key for the first dependency that is not there. */
  lemma RegistrationAnswered(capacity: nat, ops: seq<Op>, name: string, code: string, deps: seq<string>, testKey: string)
    ensures var events := EventsOf(capacity, ops, RegisterType(name, code, deps, testKey));
            if exists dep :: RefusedFor(deps, After(capacity, ops).assets, dep)
            then exists dep :: RefusedFor(deps, After(capacity, ops).assets, dep) && events == [Failed(testKey, MissingAsset(dep))]
            else events == [TypeReady(name)]
  {
    var assets := After(capacity, ops).assets;
    var missing := FirstMissing(deps, assets);
    if missing.Some? {
      RefusedIff(deps, assets, missing.value);
    }
    if dep :| RefusedFor(deps, assets, dep) {
      RefusedIff(deps, assets, dep);
    }
  }

  /** The name or key an op is about, and the one an event is about. */
  function Subject(op: Op): string {
    match op
    case RegisterAsset(name, _, _, _, _) => name
    case UnregisterAsset(name) => name
    case RegisterType(name, _, _, _) => name
    case AddWidget(key, _, _) => key
    case UpdateWidget(key, _) => key
    case Publish(key, _) => key
    case RemoveWidget(key) => key
    case TestWidget(key, _, _) => key
    case UnknownOp(key) => key
  }

  function About(e: Event): string {
    match e
    case AssetReady(name, _) => name
    case AssetRemoved(name, _, _) => name
    case TypeReady(name) => name
    case Render(key, _, _, _) => key
    case Update(key, _) => key
    case Data(key, _) => key
    case Destroy(key) => key
    case Failed(key, _) => key
  }

  /** An op that goes through without a word: a chunk that is not the last, or the removal of nothing. */
  ghost predicate Silent(capacity: nat, ops: seq<Op>, op: Op) {
    (op.RegisterAsset? && op.append && Accepted(After(capacity, ops), capacity, op, op.name)) ||
    (op.RemoveWidget? && LiveType(capacity, ops, op.key).None?)
  }

  /** Over every run: each op, also one that is not known, is answered by exactly one event about its own key
      or name (a refused type, under its test key), unless it is silent; and a failure outside uploads
      changes nothing. */
  lemma EveryOpAnswered(capacity: nat, ops: seq<Op>, op: Op)
    ensures var (s', events) := Apply(After(capacity, ops), capacity, op);
            if Silent(capacity, ops, op) then events == []
            else
              && |events| == 1
              && About(events[0]) == (if op.RegisterType? && events[0].Failed? then op.testKey else Subject(op))
              && (op.UnknownOp? ==> events[0] == Failed(op.key, BadOp))
              && (events[0].Failed? && !op.RegisterAsset? ==> s' == After(capacity, ops))
  {
    if op.RemoveWidget? {
      WidgetsAccumulate(capacity, ops, op.key);
    } else if op.RegisterAsset? {
      UsageExact(capacity, ops);
      AssetsAfterRegister(After(capacity, ops), capacity, op.name, op.mime, op.b64, op.append, op.seqNo);
    }
  }

  // ---- a view kept by replaying the events ---------------------------------------------------------------------

  /** What a host shows after one more event: tryouts are not kept, and data is fed to a widget without
      changing its properties. */
  function Show(shown: map<string, Widget>, e: Event): map<string, Widget> {
    match e
    case Render(key, wtype, props, test) => if test then shown else shown[key := Widget(wtype, props)]
    case Update(key, props) =>
      if key in shown then shown[key := Widget(shown[key].wtype, shown[key].props + props)] else shown
    case Destroy(key) => shown - {key}
    case _ => shown
  }

  function Replay(shown: map<string, Widget>, events: seq<Event>): map<string, Widget> {
    if events == [] then shown else Show(Replay(shown, events[..|events| - 1]), events[|events| - 1])
  }

  /** All events of a run. */
  function EventsAfter(capacity: nat, ops: seq<Op>): seq<Event> {
    if ops == [] then []
    else
      var init, last := ops[..|ops| - 1], ops[|ops| - 1];
      EventsAfter(capacity, init) + Apply(After(capacity, init), capacity, last).1
  }

  lemma ReplayOne(shown: map<string, Widget>, events: seq<Event>, more: seq<Event>)
    requires |more| <= 1
    ensures Replay(shown, events + more) ==
            if more == [] then Replay(shown, events) else Show(Replay(shown, events), more[0])
  {
    if more == [] {
      AppendNothing(events);
    } else {
      assert (events + more)[..|events|] == events;
    }
  }

  lemma ShowStep(s: Store, capacity: nat, op: Op)
    ensures var (s', events) := Apply(s, capacity, op);
            |events| <= 1 && s'.widgets == if events == [] then s.widgets else Show(s.widgets, events[0])
  {
  }

  /** Over every run: a host that does no more than follow the events shows exactly the widgets of the store,
      each with its type and properties. */
  lemma {:induction false} ReplayShowsWidgets(capacity: nat, ops: seq<Op>)
    ensures Replay(map[], EventsAfter(capacity, ops)) == After(capacity, ops).widgets
  {
    if ops == [] {
    } else {
      var init, op := ops[..|ops| - 1], ops[|ops| - 1];
      ReplayShowsWidgets(capacity, init);
      ShowStep(After(capacity, init), capacity, op);
      ReplayOne(map[], EventsAfter(capacity, init), Apply(After(capacity, init), capacity, op).1);
    }
  }

  // ---- the type of an asset --------------------------------------------------------------------------------------

  /** The MIME type of the chunk that began the latest accepted upload of a name. */
  ghost function FirstMime(capacity: nat, ops: seq<Op>, name: string): string {
    if ops == [] then ""
    else
      var init, last := ops[..|ops| - 1], ops[|ops| - 1];
      if Accepted(After(capacity, init), capacity, last, name) && name !in After(capacity, init).pending then last.mime
      else FirstMime(capacity, init, name)
  }

  /** What is stored under a name has this MIME type. */
  predicate Typed(s: Store, name: string, mime: string) {
    && (name in s.assets ==> s.assets[name].mime == mime)
    && (name in s.pending ==> s.pending[name].mime == mime)
  }

  function OrDefault(mime: string): string {
    if mime == "" then DEFAULT_MIME else mime
  }

  lemma TypedStep(s: Store, capacity: nat, op: Op, name: string, mime: string)
    requires WellFormed(s) && Typed(s, name, OrDefault(mime))
    ensures Typed(Apply(s, capacity, op).0, name,
              OrDefault(if Accepted(s, capacity, op, name) && name !in s.pending then op.mime else mime))
  {
    if !OnAsset(op, name) {
      OtherNamesUntouched(s, capacity, op, name);
    } else if op.RegisterAsset? {
      ReplacedIsGone(s, name);
    }
  }

  /** Over every run: an asset, and an upload under way, has the type its first chunk was sent with, or the
      default if that was empty, whatever the later chunks say. */
  lemma {:induction false} AssetHasFirstType(capacity: nat, ops: seq<Op>, name: string)
    ensures Typed(After(capacity, ops), name, OrDefault(FirstMime(capacity, ops, name)))
  {
    if ops == [] {
    } else {
      var init, op := ops[..|ops| - 1], ops[|ops| - 1];
      AssetHasFirstType(capacity, init, name);
      UsageExact(capacity, init);
      TypedStep(After(capacity, init), capacity, op, name, FirstMime(capacity, init, name));
    }
  }

  // ---- what the last op on a name leaves ---------------------------------------------------------------------------

  /** What became of the last op on a name. */
  datatype Fate = Untouched | Unregistered | Refused | Begun | Finished

  ghost function LastFate(capacity: nat, ops: seq<Op>, name: string): Fate {
    if ops == [] then Untouched
    else
      var init, last := ops[..|ops| - 1], ops[|ops| - 1];
      if !OnAsset(last, name) then LastFate(capacity, init, name)
      else if last.UnregisterAsset? then Unregistered
      else if !Accepted(After(capacity, init), capacity, last, name) then Refused
      else if last.append then Begun else Finished
  }

  /** What a name holds after that. */
  predicate HoldsAs(s: Store, name: string, fate: Fate) {
    && (name in s.poisoned <==> fate.Refused?)
    && (name in s.pending <==> fate.Begun?)
    && (fate.Finished? ==> name in s.assets)
    && (name in s.assets ==> fate.Finished? || fate.Refused?)
  }

  lemma FateStep(s: Store, capacity: nat, op: Op, name: string, fate: Fate)
    requires WellFormed(s) && HoldsAs(s, name, fate)
    ensures HoldsAs(Apply(s, capacity, op).0, name,
              if !OnAsset(op, name) then fate
              else if op.UnregisterAsset? then Unregistered
              else if !Accepted(s, capacity, op, name) then Refused
              else if op.append then Begun else Finished)
  {
    if !OnAsset(op, name) {
      OtherNamesUntouched(s, capacity, op, name);
    } else if op.RegisterAsset? {
      AssetsAfterRegister(s, capacity, name, op.mime, op.b64, op.append, op.seqNo);
      if Accepted(s, capacity, op, name) {
        AcceptedIsNotPoisoned(s, capacity, op);
      }
    }
  }

  lemma AcceptedIsNotPoisoned(s: Store, capacity: nat, op: Op)
    requires op.RegisterAsset? && Accepted(s, capacity, op, op.name)
    ensures op.name !in Apply(s, capacity, op).0.poisoned && (!op.append ==> op.name !in Apply(s, capacity, op).0.pending)
  {
  }

  /** Over every run: a name is poisoned exactly if the last op on it was a chunk that was refused, and has an
      upload under way exactly if it was a chunk that was accepted and not the last. It is complete if that
      was the last one, and otherwise only if a refused chunk left the asset that was there. */
  lemma {:induction false} LastOpDecides(capacity: nat, ops: seq<Op>, name: string)
    ensures HoldsAs(After(capacity, ops), name, LastFate(capacity, ops, name))
  {
    if ops == [] {
    } else {
      var init, op := ops[..|ops| - 1], ops[|ops| - 1];
      LastOpDecides(capacity, init, name);
      UsageExact(capacity, init);
      FateStep(After(capacity, init), capacity, op, name, LastFate(capacity, init, name));
    }
  }

  // ---- which uploads finish ----------------------------------------------------------------------------------

  /** The chunks of one upload from number i on, the last one closing it. */
  predicate IsUpload(ops: seq<Op>, name: string, i: nat) {
    && ops != [] && ops[0].RegisterAsset? && ops[0].name == name && ops[0].seqNo == Some(i)
    && (ops[0].append <==> |ops| > 1)
    && (|ops| > 1 ==> IsUpload(ops[1..], name, i + 1))
  }

  predicate NoneEmpty(ops: seq<Op>) {
    ops != [] ==> (ops[0].RegisterAsset? ==> Base64Bytes(ops[0].b64) != 0) && NoneEmpty(ops[1..])
  }

  function UploadBytes(ops: seq<Op>): nat {
    if ops == [] then 0 else (if ops[0].RegisterAsset? then Max0(Base64Bytes(ops[0].b64)) else 0) + UploadBytes(ops[1..])
  }

  function Payloads(ops: seq<Op>): seq<string> {
    if ops == [] then [] else (if ops[0].RegisterAsset? then [ops[0].b64] else []) + Payloads(ops[1..])
  }

  /** Every chunk holds something, and all of them together fit, with the asset they replace credited. */
  predicate FitsWhole(s: Store, capacity: nat, ops: seq<Op>, name: string) {
    NoneEmpty(ops) && s.usage - Replacing(s, name) + UploadBytes(ops) <= capacity
  }

  /** Ready for chunk i of the name: no upload under way for chunk 0, and one that got so far otherwise. */
  predicate Expects(s: Store, name: string, i: nat) {
    if i == 0 then name !in s.pending
    else name in s.pending && s.pending[name].seqNo == i - 1 && name !in s.poisoned
  }

  /** What has come of the upload so far. */
  function SoFar(s: Store, name: string): (seq<string>, nat) {
    if name in s.pending then (s.pending[name].chunks, s.pending[name].bytes) else ([], 0)
  }

  lemma RefusedDoesNotFit(s: Store, capacity: nat, ops: seq<Op>, name: string, i: nat)
    requires IsUpload(ops, name, i) && Expects(s, name, i) && !Accepted(s, capacity, ops[0], name)
    ensures !FitsWhole(s, capacity, ops, name)
  {
  }

  lemma {:induction false} ChunksDoNotRestart(ops: seq<Op>, name: string, i: nat)
    requires IsUpload(ops, name, i) && i > 0
    ensures forall o :: o in ops ==> !Restarts(o, name)
  {
    if |ops| > 1 {
      ChunksDoNotRestart(ops[1..], name, i + 1);
    }
    HeadTail(ops);
  }

  lemma RefusedChunk(s: Store, capacity: nat, ops: seq<Op>, name: string, i: nat)
    requires WellFormed(s) && IsUpload(ops, name, i) && Expects(s, name, i) && !Accepted(s, capacity, ops[0], name)
    ensures Fails(RunFrom(s, capacity, ops), name)
  {
    var op := ops[0];
    var (s1, e1) := Apply(s, capacity, op);
    AssetsAfterRegister(s, capacity, name, op.mime, op.b64, op.append, op.seqNo);
    if |ops| > 1 {
      ChunksDoNotRestart(ops[1..], name, i + 1);
    }
    PoisonHolds(s1, capacity, ops[1..], name);
  }

  predicate Fails(after: (Store, seq<Event>), name: string) {
    name in after.0.poisoned && name !in after.0.pending && forall e :: e in after.1 && e.AssetReady? ==> e.name != name
  }

  /** The asset is there, with these chunks, and announced once with its size. */
  predicate Completes(after: (Store, seq<Event>), name: string, chunks: seq<string>, size: nat, usage: int) {
    && after.1 == [AssetReady(name, size)]
    && name in after.0.assets && after.0.assets[name].chunks == chunks && after.0.assets[name].size == size
    && after.0.usage == usage
  }

  lemma AcceptedUsage(s: Store, capacity: nat, op: Op)
    requires op.RegisterAsset? && Accepted(s, capacity, op, op.name)
    ensures Base64Bytes(op.b64) > 0
    ensures Apply(s, capacity, op).0.usage == s.usage - Replacing(s, op.name) + Base64Bytes(op.b64)
  {
  }

  /** A chunk that is accepted and not the last. */
  lemma AcceptedChunk(s: Store, capacity: nat, op: Op, i: nat)
    requires op.RegisterAsset? && op.append && op.seqNo == Some(i)
    requires Expects(s, op.name, i) && Accepted(s, capacity, op, op.name)
    ensures var (s1, events) := Apply(s, capacity, op);
            && events == [] && Expects(s1, op.name, i + 1)
            && SoFar(s1, op.name) == (SoFar(s, op.name).0 + [op.b64], SoFar(s, op.name).1 + Max0(Base64Bytes(op.b64)))
  {
  }

  lemma LastChunk(s: Store, capacity: nat, op: Op)
    requires op.RegisterAsset? && !op.append && Accepted(s, capacity, op, op.name)
    ensures var (s1, events) := Apply(s, capacity, op);
            && op.name in s1.assets && events == [AssetReady(op.name, s1.assets[op.name].size)]
            && s1.assets[op.name].chunks == SoFar(s, op.name).0 + [op.b64]
            && s1.assets[op.name].size == SoFar(s, op.name).1 + Max0(Base64Bytes(op.b64))
  {
  }

  lemma FitsRest(s: Store, s1: Store, capacity: nat, ops: seq<Op>, name: string, i: nat)
    requires IsUpload(ops, name, i) && |ops| > 1 && Base64Bytes(ops[0].b64) > 0
    requires s1.usage - Replacing(s1, name) == s.usage - Replacing(s, name) + Base64Bytes(ops[0].b64)
    ensures IsUpload(ops[1..], name, i + 1)
    ensures FitsWhole(s1, capacity, ops[1..], name) <==> FitsWhole(s, capacity, ops, name)
  {
  }

  lemma RunHead(s: Store, capacity: nat, ops: seq<Op>, s1: Store, e1: seq<Event>)
    requires ops != [] && Apply(s, capacity, ops[0]) == (s1, e1)
    ensures RunFrom(s, capacity, ops) == (RunFrom(s1, capacity, ops[1..]).0, e1 + RunFrom(s1, capacity, ops[1..]).1)
  {
  }

  /** What comes of the upload. */
  predicate Outcome(after: (Store, seq<Event>), s: Store, capacity: nat, ops: seq<Op>, name: string) {
    if FitsWhole(s, capacity, ops, name)
    then Completes(after, name, SoFar(s, name).0 + Payloads(ops), SoFar(s, name).1 + UploadBytes(ops),
           s.usage - Replacing(s, name) + UploadBytes(ops))
    else Fails(after, name)
  }

  /** The store after one more chunk, and what remains. */
  lemma OneChunkOn(s: Store, capacity: nat, ops: seq<Op>, name: string, i: nat, s1: Store)
    requires IsUpload(ops, name, i) && |ops| > 1
    requires Expects(s, name, i) && Accepted(s, capacity, ops[0], name) && s1 == Apply(s, capacity, ops[0]).0
    ensures Expects(s1, name, i + 1)
    ensures SoFar(s1, name) == (SoFar(s, name).0 + [ops[0].b64], SoFar(s, name).1 + Max0(Base64Bytes(ops[0].b64)))
    ensures s1.usage - Replacing(s1, name) == s.usage - Replacing(s, name) + Max0(Base64Bytes(ops[0].b64))
  {
    AcceptedUsage(s, capacity, ops[0]);
    AcceptedChunk(s, capacity, ops[0], i);
  }

  lemma AcceptedKeepsForm(s: Store, capacity: nat, op: Op)
    requires WellFormed(s) && op.RegisterAsset? && Accepted(s, capacity, op, op.name)
    ensures WellFormed(Apply(s, capacity, op).0)
  {
    var s1 := if op.seqNo == Some(0) then s.(poisoned := s.poisoned - {op.name}) else s;
    AcceptKeepsForm(s1, op.name, op.mime, op.b64, op.append, op.seqNo);
  }

  lemma OneChunkRun(s: Store, capacity: nat, ops: seq<Op>, name: string, i: nat, s1: Store)
    requires IsUpload(ops, name, i) && |ops| > 1
    requires Expects(s, name, i) && Accepted(s, capacity, ops[0], name) && s1 == Apply(s, capacity, ops[0]).0
    ensures RunFrom(s, capacity, ops) == RunFrom(s1, capacity, ops[1..])
  {
    AcceptedChunk(s, capacity, ops[0], i);
    RunHead(s, capacity, ops, s1, []);
    NothingBefore(RunFrom(s1, capacity, ops[1..]).1);
  }

  lemma OutcomeGrows(after: (Store, seq<Event>), s: Store, s1: Store, capacity: nat, ops: seq<Op>, name: string, i: nat)
    requires IsUpload(ops, name, i) && |ops| > 1 && Outcome(after, s1, capacity, ops[1..], name)
    requires SoFar(s1, name) == (SoFar(s, name).0 + [ops[0].b64], SoFar(s, name).1 + Max0(Base64Bytes(ops[0].b64)))
    requires s1.usage - Replacing(s1, name) == s.usage - Replacing(s, name) + Max0(Base64Bytes(ops[0].b64))
    requires FitsWhole(s1, capacity, ops[1..], name) <==> FitsWhole(s, capacity, ops, name)
    ensures Outcome(after, s, capacity, ops, name)
  {
    Regroup(SoFar(s, name).0, [ops[0].b64], Payloads(ops[1..]));
  }

  lemma NothingBefore(events: seq<Event>)
    ensures [] + events == events
  {
  }

  lemma OnlyChunk(s: Store, capacity: nat, ops: seq<Op>, name: string, i: nat)
    requires IsUpload(ops, name, i) && |ops| == 1 && Accepted(s, capacity, ops[0], name)
    ensures Outcome(RunFrom(s, capacity, ops), s, capacity, ops, name)
  {
    var (s1, e1) := Apply(s, capacity, ops[0]);
    LastChunk(s, capacity, ops[0]);
    AcceptedUsage(s, capacity, ops[0]);
    assert ops[1..] == [];
    RunHead(s, capacity, ops, s1, e1);
    AppendNothing(e1);
    OnlyOutcome(s1, s, capacity, ops, name, i);
  }

  lemma OnlyOutcome(s1: Store, s: Store, capacity: nat, ops: seq<Op>, name: string, i: nat)
    requires IsUpload(ops, name, i) && |ops| == 1 && Accepted(s, capacity, ops[0], name) && Base64Bytes(ops[0].b64) > 0
    requires name in s1.assets && s1.assets[name].chunks == SoFar(s, name).0 + [ops[0].b64]
    requires s1.assets[name].size == SoFar(s, name).1 + Base64Bytes(ops[0].b64)
    requires s1.usage == s.usage - Replacing(s, name) + Base64Bytes(ops[0].b64)
    ensures Outcome((s1, [AssetReady(name, s1.assets[name].size)]), s, capacity, ops, name)
  {
    assert ops[1..] == [] && NoneEmpty(ops[1..]) && Payloads(ops[1..]) == [] && UploadBytes(ops[1..]) == 0;
    AppendNothing([ops[0].b64]);
  }

  lemma OneChunkMore(s: Store, capacity: nat, ops: seq<Op>, name: string, i: nat, s1: Store)
    requires IsUpload(ops, name, i) && |ops| > 1 && Expects(s, name, i) && Accepted(s, capacity, ops[0], name)
    requires s1 == Apply(s, capacity, ops[0]).0 && Outcome(RunFrom(s1, capacity, ops[1..]), s1, capacity, ops[1..], name)
    ensures Outcome(RunFrom(s, capacity, ops), s, capacity, ops, name)
  {
    OneChunkOn(s, capacity, ops, name, i, s1);
    AcceptedUsage(s, capacity, ops[0]);
    FitsRest(s, s1, capacity, ops, name, i);
    OneChunkRun(s, capacity, ops, name, i, s1);
    OutcomeGrows(RunFrom(s1, capacity, ops[1..]), s, s1, capacity, ops, name, i);
  }

  /** From any store the chunks 0, 1, ... of an upload, sent without a break, finish it exactly if each holds
      something and the whole fits; otherwise the name ends poisoned. (The same from chunk i on.) */
  lemma {:induction false} UploadCompletesIff(s: Store, capacity: nat, ops: seq<Op>, name: string, i: nat)
    requires WellFormed(s) && IsUpload(ops, name, i) && Expects(s, name, i)
    ensures Outcome(RunFrom(s, capacity, ops), s, capacity, ops, name)
    decreases |ops|
  {
    if !Accepted(s, capacity, ops[0], name) {
      RefusedChunk(s, capacity, ops, name, i);
      RefusedDoesNotFit(s, capacity, ops, name, i);
    } else if |ops| == 1 {
      OnlyChunk(s, capacity, ops, name, i);
    } else {
      var s1 := Apply(s, capacity, ops[0]).0;
      AcceptedKeepsForm(s, capacity, ops[0]);
      OneChunkOn(s, capacity, ops, name, i, s1);
      UploadCompletesIff(s1, capacity, ops[1..], name, i + 1);
      OneChunkMore(s, capacity, ops, name, i, s1);
    }
  }
}
