/** The surface store over arbitrary runs of ops: storage accounting, what a finished asset is made
    of, what an aborted upload leaves behind, and what can invalidate a widget type. */
module SurfaceRuns {
  import opened Bytes
  import opened Maps
  import opened Base64Size
  import opened Surface
  import Utf8

  function After(capacity: nat, ops: seq<Op>): Store {
    if ops == [] then EMPTY_STORE else Apply(After(capacity, ops[..|ops| - 1]), capacity, ops[|ops| - 1]).0
  }

  // ---- storage accounting -------------------------------------------------------------------------------

  ghost function Sum(m: map<string, nat>): nat
    decreases |m|
  {
    if m == map[] then 0
    else
      SomeKey(m);
      var k :| k in m;
      RemoveKey(m, k);
      m[k] + Sum(m - {k})
  }

  lemma SomeKey(m: map<string, nat>)
    requires m != map[]
    ensures exists k :: k in m
  {
    assert (forall k :: k !in m) ==> m == map[];
  }

  lemma {:induction false} SumWithout(m: map<string, nat>, k: string)
    ensures Sum(m) == (if k in m then m[k] else 0) + Sum(m - {k})
    decreases |m|
  {
    if k !in m {
      assert m - {k} == m;
    } else {
      SomeKey(m);
      var j :| j in m && Sum(m) == m[j] + Sum(m - {j});
      if j != k {
        RemoveKey(m, j);
        RemoveKey(m, k);
        SumWithout(m - {j}, k);
        SumWithout(m - {k}, j);
        assert m - {j} - {k} == m - {k} - {j};
      }
    }
  }

  function AssetSizes(assets: map<string, Asset>): map<string, nat> {
    map n | n in assets :: assets[n].size
  }

  function PendingSizes(pending: map<string, Upload>): map<string, nat> {
    map n | n in pending :: pending[n].bytes
  }

  /** The bytes stored, recomputed from the store. */
  ghost function Total(s: Store): nat {
    Sum(AssetSizes(s.assets)) + Sum(PendingSizes(s.pending))
  }

  /** The decoded size of a list of chunks. */
  function ChunkBytes(chunks: seq<string>): nat {
    if chunks == [] then 0 else ChunkBytes(chunks[..|chunks| - 1]) + Max0(Base64Bytes(chunks[|chunks| - 1]))
  }

  /** No name is both complete and pending, none is both pending and poisoned; sizes are positive
      and are those of the chunks. */
  ghost predicate WellFormed(s: Store) {
    && s.assets.Keys !! s.pending.Keys && s.pending.Keys !! s.poisoned
    && (forall n :: n in s.assets ==> s.assets[n].size > 0 && s.assets[n].size == ChunkBytes(s.assets[n].chunks))
    && (forall n :: n in s.pending ==> s.pending[n].bytes > 0 && s.pending[n].bytes == ChunkBytes(s.pending[n].chunks))
  }

  /** Usage is the recomputed total, and within the cap. */
  ghost predicate Inv(s: Store, capacity: nat) {
    s.usage == Total(s) && s.usage <= capacity && WellFormed(s)
  }

  /** What the sizes of one name contribute to the total, and the rest. */
  lemma TotalOf(s: Store, name: string)
    ensures Total(s) == Freed(s, name) + Sum(AssetSizes(s.assets) - {name}) + Sum(PendingSizes(s.pending) - {name})
  {
    SumWithout(AssetSizes(s.assets), name);
    SumWithout(PendingSizes(s.pending), name);
  }

  /** Stores that differ only in what they hold under one name. */
  lemma TotalChange(s: Store, s': Store, name: string)
    requires s'.assets - {name} == s.assets - {name} && s'.pending - {name} == s.pending - {name}
    ensures Total(s') - Freed(s', name) == Total(s) - Freed(s, name)
  {
    TotalOf(s, name);
    TotalOf(s', name);
    assert AssetSizes(s'.assets) - {name} == AssetSizes(s.assets - {name}) == AssetSizes(s.assets) - {name};
    assert PendingSizes(s'.pending) - {name} == PendingSizes(s.pending - {name}) == PendingSizes(s.pending) - {name};
  }

  lemma FreedWithin(s: Store, name: string)
    ensures Freed(s, name) <= Total(s)
  {
    TotalOf(s, name);
  }

  lemma ChunkBytesAppend(chunks: seq<string>, b64: string)
    ensures ChunkBytes(chunks + [b64]) == ChunkBytes(chunks) + Max0(Base64Bytes(b64))
  {
    assert (chunks + [b64])[..|chunks|] == chunks;
  }

  lemma AbortKeepsInv(s: Store, capacity: nat, name: string)
    requires Inv(s, capacity)
    ensures Inv(Abort(s, name), capacity)
    ensures Abort(s, name).usage == s.usage - (if name in s.pending then s.pending[name].bytes else 0)
  {
    var s' := Abort(s, name);
    FreedWithin(s, name);
    assert s'.assets - {name} == s.assets - {name} && s'.pending - {name} == s.pending - {name};
    TotalChange(s, s', name);
  }

  lemma AcceptKeepsForm(s: Store, name: string, mime: string, b64: string, append: bool, seqNo: Option<int>)
    requires WellFormed(s) && name !in s.poisoned && Base64Bytes(b64) > 0
    ensures WellFormed(AcceptChunk(s, name, mime, b64, append, seqNo).0)
  {
    var up := Extended(s, name, mime, b64, seqNo);
    ChunkBytesAppend(if name in s.pending then s.pending[name].chunks else [], b64);
    assert up.bytes == ChunkBytes(up.chunks) && up.bytes > 0;
  }

  lemma AcceptLeavesOthers(s: Store, name: string, mime: string, b64: string, append: bool, seqNo: Option<int>)
    ensures var s' := AcceptChunk(s, name, mime, b64, append, seqNo).0;
            s'.assets - {name} == s.assets - {name} && s'.pending - {name} == s.pending - {name}
  {
  }

  lemma AcceptFrees(s: Store, name: string, mime: string, b64: string, append: bool, seqNo: Option<int>)
    requires WellFormed(s) && Base64Bytes(b64) > 0
    ensures var s' := AcceptChunk(s, name, mime, b64, append, seqNo).0;
            Freed(s', name) == Freed(s, name) - Replacing(s, name) + Base64Bytes(b64)
  {
  }

  lemma AcceptKeepsTotal(s: Store, name: string, mime: string, b64: string, append: bool, seqNo: Option<int>)
    requires WellFormed(s) && s.usage == Total(s) && Base64Bytes(b64) > 0
    ensures var s' := AcceptChunk(s, name, mime, b64, append, seqNo).0;
            s'.usage == Total(s') == s.usage - Replacing(s, name) + Base64Bytes(b64)
  {
    var s' := AcceptChunk(s, name, mime, b64, append, seqNo).0;
    AcceptLeavesOthers(s, name, mime, b64, append, seqNo);
    AcceptFrees(s, name, mime, b64, append, seqNo);
    TotalChange(s, s', name);
  }

  lemma RegisterKeepsInv(s: Store, capacity: nat, name: string, mime: string, b64: string, append: bool, seqNo: Option<int>)
    requires Inv(s, capacity)
    ensures Inv(OnRegister(s, capacity, name, mime, b64, append, seqNo).0, capacity)
  {
    var s1 := if seqNo == Some(0) then s.(poisoned := s.poisoned - {name}) else s;
    assert Inv(s1, capacity);
    if Refusal(s, capacity, name, b64, seqNo).Some? {
      AbortKeepsInv(s1, capacity, name);
    } else {
      AcceptKeepsInv(s1, capacity, name, mime, b64, append, seqNo);
    }
  }

  lemma AcceptKeepsInv(s: Store, capacity: nat, name: string, mime: string, b64: string, append: bool, seqNo: Option<int>)
    requires Inv(s, capacity) && name !in s.poisoned && Base64Bytes(b64) > 0
    requires s.usage - Replacing(s, name) + Base64Bytes(b64) <= capacity
    ensures Inv(AcceptChunk(s, name, mime, b64, append, seqNo).0, capacity)
  {
    AcceptKeepsForm(s, name, mime, b64, append, seqNo);
    AcceptKeepsTotal(s, name, mime, b64, append, seqNo);
  }

  lemma UnregisterKeepsInv(s: Store, capacity: nat, name: string)
    requires Inv(s, capacity)
    ensures Inv(OnUnregister(s, name).0, capacity)
  {
    var s' := OnUnregister(s, name).0;
    FreedWithin(s, name);
    assert s'.assets - {name} == s.assets - {name} && s'.pending - {name} == s.pending - {name};
    TotalChange(s, s', name);
  }

  lemma StepKeepsInv(s: Store, capacity: nat, op: Op)
    requires Inv(s, capacity)
    ensures Inv(Apply(s, capacity, op).0, capacity)
  {
    match op
    case RegisterAsset(name, mime, b64, append, seqNo) =>
      RegisterKeepsInv(s, capacity, name, mime, b64, append, seqNo);
    case UnregisterAsset(name) => UnregisterKeepsInv(s, capacity, name);
    case _ => StorageUntouched(s, capacity, op);
  }

  lemma StorageUntouched(s: Store, capacity: nat, op: Op)
    requires !op.RegisterAsset? && !op.UnregisterAsset?
    ensures var s' := Apply(s, capacity, op).0;
            s'.assets == s.assets && s'.pending == s.pending && s'.poisoned == s.poisoned && s'.usage == s.usage
  {
  }

  /** In every reachable state usage is exactly the bytes stored, and never above the cap. */
  lemma {:induction false} UsageExact(capacity: nat, ops: seq<Op>)
    ensures Inv(After(capacity, ops), capacity)
  {
    if ops == [] {
    } else {
      UsageExact(capacity, ops[..|ops| - 1]);
      StepKeepsInv(After(capacity, ops[..|ops| - 1]), capacity, ops[|ops| - 1]);
    }
  }

  /** Unregistering frees exactly what the name held; the clamp at zero is never needed. */
  lemma UnregisterFreesExactly(s: Store, capacity: nat, name: string)
    requires Inv(s, capacity)
    ensures var (s', events) := OnUnregister(s, name);
            s'.usage == s.usage - Freed(s, name) && events == [AssetRemoved(name, Freed(s, name), s'.usage)] &&
            Freed(s', name) == 0
  {
    FreedWithin(s, name);
  }

  // ---- replacement -----------------------------------------------------------------------------------------------

  lemma AcceptEffect(s: Store, name: string, mime: string, b64: string, append: bool, seqNo: Option<int>)
    requires WellFormed(s)
    ensures var (s', events) := AcceptChunk(s, name, mime, b64, append, seqNo);
            if append then s'.assets == s.assets - {name} && events == [] && name in s'.pending
            else
              && s'.assets - {name} == s.assets - {name} && name in s'.assets && name !in s'.pending
              && events == [AssetReady(name, s'.assets[name].size)]
  {
    ReplacedIsGone(s, name);
    if !append {
      AcceptLeavesOthers(s, name, mime, b64, append, seqNo);
    }
  }

  /** Positive sizes make the removal of a replaced asset unconditional. */
  lemma ReplacedIsGone(s: Store, name: string)
    requires WellFormed(s)
    ensures (if Replacing(s, name) > 0 then s.assets - {name} else s.assets) == s.assets - {name}
  {
    if Replacing(s, name) == 0 {
      assert name !in s.assets;
      assert s.assets - {name} == s.assets;
    }
  }

  /** The complete assets change in one way only: an accepted chunk of a name takes its old asset
      away, and its last chunk puts the new one in place. A refused chunk leaves all of them. */
  lemma AssetsAfterRegister(s: Store, capacity: nat, name: string, mime: string, b64: string, append: bool, seqNo: Option<int>)
    requires WellFormed(s)
    ensures var (s', events) := OnRegister(s, capacity, name, mime, b64, append, seqNo);
            var refusal := Refusal(s, capacity, name, b64, seqNo);
            if refusal.Some? then
              s'.assets == s.assets && events == [Failed(name, refusal.value)] && name in s'.poisoned && name !in s'.pending
            else if append then
              s'.assets == s.assets - {name} && events == [] && name in s'.pending
            else
              && s'.assets - {name} == s.assets - {name} && name in s'.assets && name !in s'.pending
              && events == [AssetReady(name, s'.assets[name].size)]
  {
    if Refusal(s, capacity, name, b64, seqNo).None? {
      var s1 := if seqNo == Some(0) then s.(poisoned := s.poisoned - {name}) else s;
      AcceptEffect(s1, name, mime, b64, append, seqNo);
    }
  }

  // ---- what a finished asset is made of ------------------------------------------------------------------------------

  predicate OnAsset(op: Op, name: string) {
    (op.RegisterAsset? || op.UnregisterAsset?) && op.name == name
  }

  /** The ops of a run that concern one asset name. */
  function OpsOn(ops: seq<Op>, name: string): seq<Op> {
    if ops == [] then []
    else OpsOn(ops[..|ops| - 1], name) + (if OnAsset(ops[|ops| - 1], name) then [ops[|ops| - 1]] else [])
  }

  /** Every chunk of the name carries a sequence number. */
  predicate Numbered(ops: seq<Op>, name: string) {
    forall op :: op in ops && op.RegisterAsset? && op.name == name ==> op.seqNo.Some?
  }

  /** These ops are the chunks 0, 1, 2, ... with the given payloads. */
  predicate AreChunks(ops: seq<Op>, chunks: seq<string>) {
    && |ops| == |chunks|
    && forall i :: 0 <= i < |ops| ==>
         ops[i].RegisterAsset? && ops[i].seqNo == Some(i) && ops[i].b64 == chunks[i]
  }

  predicate EndsWithChunks(rel: seq<Op>, chunks: seq<string>) {
    |chunks| <= |rel| && AreChunks(rel[|rel| - |chunks|..], chunks)
  }

  lemma EndsWithOneMore(rel: seq<Op>, chunks: seq<string>, op: Op)
    requires EndsWithChunks(rel, chunks)
    requires op.RegisterAsset? && op.seqNo == Some(|chunks|)
    ensures EndsWithChunks(rel + [op], chunks + [op.b64])
  {
    var rel', chunks' := rel + [op], chunks + [op.b64];
    assert rel'[|rel'| - |chunks'|..] == rel[|rel| - |chunks|..] + [op];
  }

  /** Two stores agree on everything they hold under a name. */
  predicate SameAt(s: Store, s': Store, name: string) {
    && (name in s'.pending <==> name in s.pending) && (name in s.pending ==> s'.pending[name] == s.pending[name])
    && (name in s'.assets <==> name in s.assets) && (name in s.assets ==> s'.assets[name] == s.assets[name])
    && (name in s'.poisoned <==> name in s.poisoned)
  }

  lemma OtherNamesUntouched(s: Store, capacity: nat, op: Op, name: string)
    requires !OnAsset(op, name)
    ensures SameAt(s, Apply(s, capacity, op).0, name)
    ensures forall e :: e in Apply(s, capacity, op).1 && e.AssetReady? ==> e.name != name
  {
    match op
    case RegisterAsset(other, mime, b64, append, seqNo) =>
      RegisterLeavesOthers(s, capacity, other, mime, b64, append, seqNo, name);
    case _ =>
  }

  lemma RegisterLeavesOthers(s: Store, capacity: nat, other: string, mime: string, b64: string, append: bool, seqNo: Option<int>, name: string)
    requires other != name
    ensures SameAt(s, OnRegister(s, capacity, other, mime, b64, append, seqNo).0, name)
    ensures forall e :: e in OnRegister(s, capacity, other, mime, b64, append, seqNo).1 && e.AssetReady? ==> e.name != name
  {
    var s1 := if seqNo == Some(0) then s.(poisoned := s.poisoned - {other}) else s;
    AcceptLeavesOther(s1, other, mime, b64, append, seqNo, name);
  }

  lemma AcceptLeavesOther(s: Store, other: string, mime: string, b64: string, append: bool, seqNo: Option<int>, name: string)
    requires other != name
    ensures SameAt(s, AcceptChunk(s, other, mime, b64, append, seqNo).0, name)
    ensures forall e :: e in AcceptChunk(s, other, mime, b64, append, seqNo).1 && e.AssetReady? ==> e.name != name
  {
  }

  /** The chunks of a pending upload are the last ops on its name. */
  predicate Tail(s: Store, name: string, rel: seq<Op>) {
    name in s.pending ==>
      s.pending[name].seqNo == |s.pending[name].chunks| - 1 && EndsWithChunks(rel, s.pending[name].chunks)
  }

  lemma {:induction false} PendingIsTail(capacity: nat, ops: seq<Op>, name: string)
    requires Numbered(ops, name)
    ensures Tail(After(capacity, ops), name, OpsOn(ops, name))
  {
    if ops == [] {
    } else {
      var init, op := ops[..|ops| - 1], ops[|ops| - 1];
      assert op in ops && forall o :: o in init ==> o in ops;
      PendingIsTail(capacity, init, name);
      UsageExact(capacity, init);
      var s := After(capacity, init);
      if !OnAsset(op, name) {
        OtherNamesUntouched(s, capacity, op, name);
        AppendNothing(OpsOn(init, name));
      } else {
        TailStep(s, capacity, OpsOn(init, name), op);
      }
    }
  }

  lemma TailStep(s: Store, capacity: nat, rel: seq<Op>, op: Op)
    requires op.UnregisterAsset? || (op.RegisterAsset? && op.seqNo.Some?)
    requires WellFormed(s) && Tail(s, op.name, rel)
    ensures Tail(Apply(s, capacity, op).0, op.name, rel + [op])
  {
    if op.RegisterAsset? {
      if Refusal(s, capacity, op.name, op.b64, op.seqNo).None? {
        ExtendTail(s, rel, op);
      } else {
        AssetsAfterRegister(s, capacity, op.name, op.mime, op.b64, op.append, op.seqNo);
      }
    }
  }

  /** An accepted numbered chunk continues the tail of the pending upload, or starts a new one. */
  lemma ExtendTail(s: Store, rel: seq<Op>, op: Op)
    requires op.RegisterAsset? && op.seqNo.Some? && op.seqNo.value == Wanted(s, op.name)
    requires Tail(s, op.name, rel)
    ensures var up := Extended(s, op.name, op.mime, op.b64, op.seqNo);
            up.seqNo == |up.chunks| - 1 && EndsWithChunks(rel + [op], up.chunks)
  {
    EndsWithOneMore(rel, if op.name in s.pending then s.pending[op.name].chunks else [], op);
  }

  /** For a fully numbered name: an asset that becomes ready consists of exactly the payloads of
      chunks 0 to n in order, which are the last n + 1 ops on that name, and its size is the exact
      number of bytes they decode to. */
  lemma ReadyAssetIsItsChunks(capacity: nat, ops: seq<Op>, op: Op, name: string, size: nat)
    requires Numbered(ops + [op], name)
    requires AssetReady(name, size) in Apply(After(capacity, ops), capacity, op).1
    ensures var s' := After(capacity, ops + [op]);
            && name in s'.assets && s'.assets[name].size == size == ChunkBytes(s'.assets[name].chunks)
            && EndsWithChunks(OpsOn(ops + [op], name), s'.assets[name].chunks)
            && op.RegisterAsset? && !op.append && op.seqNo == Some(|s'.assets[name].chunks| - 1)
  {
    var s := After(capacity, ops);
    assert (ops + [op])[..|ops|] == ops;
    ReadyMeansAccepted(s, capacity, op, name, size);
    assert op in ops + [op] && forall o :: o in ops ==> o in ops + [op];
    PendingIsTail(capacity, ops, name);
    ExtendTail(s, OpsOn(ops, name), op);
    UsageExact(capacity, ops + [op]);
  }

  lemma ReadyMeansAccepted(s: Store, capacity: nat, op: Op, name: string, size: nat)
    requires AssetReady(name, size) in Apply(s, capacity, op).1
    ensures op.RegisterAsset? && op.name == name && !op.append
    ensures Refusal(s, capacity, name, op.b64, op.seqNo).None?
    ensures var up, s' := Extended(s, name, op.mime, op.b64, op.seqNo), Apply(s, capacity, op).0;
            name in s'.assets && s'.assets[name] == Asset(up.mime, up.chunks, up.bytes) && up.bytes == size
  {
  }

  // ---- aborted uploads ---------------------------------------------------------------------------------------------------

  /** Restarting an upload: chunk 0, or unregistering the name. */
  predicate Restarts(op: Op, name: string) {
    OnAsset(op, name) && (op.RegisterAsset? ==> op.seqNo == Some(0))
  }

  function RunFrom(s: Store, capacity: nat, ops: seq<Op>): (Store, seq<Event>)
    decreases |ops|
  {
    if ops == [] then (s, [])
    else
      var (s1, e1) := Apply(s, capacity, ops[0]);
      var (s2, e2) := RunFrom(s1, capacity, ops[1..]);
      (s2, e1 + e2)
  }

  /** After an abort, until the agent restarts the upload, nothing under that name becomes ready,
      no bytes of it are stored, and an asset it had keeps its old contents. */
  lemma {:induction false} PoisonHolds(s: Store, capacity: nat, ops: seq<Op>, name: string)
    requires name in s.poisoned && name !in s.pending
    requires forall op :: op in ops ==> !Restarts(op, name)
    ensures var (s', events) := RunFrom(s, capacity, ops);
            && name in s'.poisoned && name !in s'.pending
            && (name in s'.assets <==> name in s.assets) && (name in s.assets ==> s'.assets[name] == s.assets[name])
            && (forall e :: e in events && e.AssetReady? ==> e.name != name)
    decreases |ops|
  {
    if ops == [] {
    } else {
      assert ops[0] in ops && forall op :: op in ops[1..] ==> op in ops;
      if !OnAsset(ops[0], name) {
        OtherNamesUntouched(s, capacity, ops[0], name);
      }
      PoisonHolds(Apply(s, capacity, ops[0]).0, capacity, ops[1..], name);
    }
  }

  // ---- replacements that do not complete ----------------------------------------------------------------------------------

  predicate Accepted(s: Store, capacity: nat, op: Op, name: string) {
    op.RegisterAsset? && op.name == name && Refusal(s, capacity, name, op.b64, op.seqNo).None?
  }

  /** The run completes no upload of the name and does not unregister it: its ops on the name are
      chunks, and those accepted announce more. Ops on other names may come in between. */
  predicate NeverCompletes(s: Store, capacity: nat, ops: seq<Op>, name: string)
    decreases |ops|
  {
    ops != [] ==>
      && (OnAsset(ops[0], name) ==> ops[0].RegisterAsset? && (ops[0].append || !Accepted(s, capacity, ops[0], name)))
      && NeverCompletes(Apply(s, capacity, ops[0]).0, capacity, ops[1..], name)
  }

  predicate NoneAccepted(s: Store, capacity: nat, ops: seq<Op>, name: string)
    decreases |ops|
  {
    ops != [] ==>
      && !Accepted(s, capacity, ops[0], name)
      && NoneAccepted(Apply(s, capacity, ops[0]).0, capacity, ops[1..], name)
  }

  /** What one op of such a run does to the complete asset. */
  lemma IncompleteStep(s: Store, capacity: nat, op: Op, name: string)
    requires Inv(s, capacity)
    requires OnAsset(op, name) ==> op.RegisterAsset? && (op.append || !Accepted(s, capacity, op, name))
    ensures var s' := Apply(s, capacity, op).0;
            && (name in s'.assets <==> name in s.assets && !Accepted(s, capacity, op, name))
            && (name in s'.assets ==> s'.assets[name] == s.assets[name])
  {
    if OnAsset(op, name) {
      AssetsAfterRegister(s, capacity, name, op.mime, op.b64, op.append, op.seqNo);
    } else {
      OtherNamesUntouched(s, capacity, op, name);
    }
  }

  /** A replacement that does not complete, refused halfway or left hanging, leaves the old asset in
      place exactly when none of its chunks was accepted. */
  lemma {:induction false} OldAssetSurvivesIff(s: Store, capacity: nat, ops: seq<Op>, name: string)
    requires Inv(s, capacity) && NeverCompletes(s, capacity, ops, name)
    ensures var s' := RunFrom(s, capacity, ops).0;
            && (name in s'.assets <==> name in s.assets && NoneAccepted(s, capacity, ops, name))
            && (name in s'.assets ==> s'.assets[name] == s.assets[name])
    decreases |ops|
  {
    if ops == [] {
    } else {
      var s1 := Apply(s, capacity, ops[0]).0;
      IncompleteStep(s, capacity, ops[0], name);
      StepKeepsInv(s, capacity, ops[0]);
      OldAssetSurvivesIff(s1, capacity, ops[1..], name);
    }
  }

  /** For example, with any payload that fits: a good asset, a first chunk of its replacement, and a
      chunk with the wrong number. The asset is gone and its name poisoned. */
  lemma AssetLostToRefusal(capacity: nat, b64: string)
    requires 0 < Base64Bytes(b64) <= capacity
    ensures var whole := RegisterAsset("lib", "", b64, false, None);
            var first, wrong := RegisterAsset("lib", "", b64, true, Some(0)), RegisterAsset("lib", "", b64, false, Some(2));
            var before, after := RunFrom(EMPTY_STORE, capacity, [whole]), RunFrom(EMPTY_STORE, capacity, [whole, first, wrong]);
            && "lib" in before.0.assets && before.1 == [AssetReady("lib", Base64Bytes(b64))]
            && "lib" !in after.0.assets && "lib" in after.0.poisoned && after.0.usage == 0
            && after.1 == [AssetReady("lib", Base64Bytes(b64)), Failed("lib", WrongSeq(2, 1))]
  {
    var whole := RegisterAsset("lib", "", b64, false, None);
    var first, wrong := RegisterAsset("lib", "", b64, true, Some(0)), RegisterAsset("lib", "", b64, false, Some(2));
    var (s1, e1) := Apply(EMPTY_STORE, capacity, whole);
    var (s2, e2) := Apply(s1, capacity, first);
    var (s3, e3) := Apply(s2, capacity, wrong);
    assert e1 == [AssetReady("lib", Base64Bytes(b64))] && "lib" in s1.assets && "lib" !in s1.pending;
    assert e2 == [] && "lib" !in s2.assets && "lib" in s2.pending && s2.pending["lib"].seqNo == 0;
    assert e3 == [Failed("lib", WrongSeq(2, 1))];
    assert [whole][1..] == [] && [first, wrong][1..] == [wrong] && [wrong][1..] == [] && [whole, first, wrong][1..] == [first, wrong];
    assert RunFrom(s2, capacity, [wrong]) == (s3, e3 + []);
    assert RunFrom(s1, capacity, [first, wrong]) == (s3, e2 + (e3 + []));
  }

  // ---- dependencies of widget types ----------------------------------------------------------------------------------------

  ghost predicate DepsPresent(s: Store) {
    forall t, d :: t in s.types && d in s.types[t].assets && d != "" ==> d in s.assets
  }

  ghost predicate Needed(s: Store, name: string) {
    name != "" && exists t :: t in s.types && name in s.types[t].assets
  }

  lemma {:induction false} FirstMissingNone(deps: seq<string>, assets: map<string, Asset>)
    ensures FirstMissing(deps, assets).None? ==> forall d :: d in deps ==> d in assets
    ensures FirstMissing(deps, assets).Some? ==> FirstMissing(deps, assets).value in deps && FirstMissing(deps, assets).value !in assets
  {
    if deps == [] {
    } else {
      FirstMissingNone(deps[1..], assets);
    }
  }

  /** Whether one op, from a store where every type has its assets, leaves a type without one: it
      unregisters a needed asset, or begins to replace one with a chunk that is not the last, or
      registers a type whose first missing dependency has the empty name, which hides the others. */
  ghost predicate LosesDep(s: Store, capacity: nat, op: Op) {
    match op
    case UnregisterAsset(name) => Needed(s, name)
    case RegisterAsset(name, _, b64, append, seqNo) =>
      append && Needed(s, name) && Refusal(s, capacity, name, b64, seqNo).None?
    case RegisterType(_, _, deps, _) =>
      FirstMissing(deps, s.assets) == Some("") && exists d :: d in deps && d != "" && d !in s.assets
    case _ => false
  }

  /** Dependencies are checked at registration only; this is exactly what can break them later. */
  lemma DepsLostIff(s: Store, capacity: nat, op: Op)
    requires WellFormed(s) && DepsPresent(s)
    ensures !DepsPresent(Apply(s, capacity, op).0) <==> LosesDep(s, capacity, op)
  {
    match op
    case UnregisterAsset(name) =>
      DepsWithout(s, Apply(s, capacity, op).0, name);
    case RegisterAsset(name, mime, b64, append, seqNo) =>
      RegisterLosesDep(s, capacity, name, mime, b64, append, seqNo);
    case RegisterType(name, code, deps, testKey) =>
      TypeLosesDep(s, capacity, name, code, deps, testKey);
    case _ =>
      DepsUnchanged(s, Apply(s, capacity, op).0);
  }

  lemma DepsUnchanged(s: Store, s': Store)
    requires DepsPresent(s) && s'.types == s.types && s.assets.Keys <= s'.assets.Keys
    ensures DepsPresent(s')
  {
  }

  lemma DepsWithout(s: Store, s': Store, name: string)
    requires DepsPresent(s) && s'.types == s.types && s'.assets == s.assets - {name}
    ensures !DepsPresent(s') <==> Needed(s, name)
  {
    if Needed(s, name) {
      var t :| t in s.types && name in s.types[t].assets;
      assert t in s'.types && name in s'.types[t].assets && name !in s'.assets;
    }
  }

  lemma RegisterLosesDep(s: Store, capacity: nat, name: string, mime: string, b64: string, append: bool, seqNo: Option<int>)
    requires WellFormed(s) && DepsPresent(s)
    ensures !DepsPresent(OnRegister(s, capacity, name, mime, b64, append, seqNo).0) <==>
            append && Needed(s, name) && Refusal(s, capacity, name, b64, seqNo).None?
  {
    var s' := OnRegister(s, capacity, name, mime, b64, append, seqNo).0;
    AssetsAfterRegister(s, capacity, name, mime, b64, append, seqNo);
    if append && Refusal(s, capacity, name, b64, seqNo).None? {
      DepsWithout(s, s', name);
    } else {
      assert forall d :: d in s.assets && d != name ==> d in s.assets - {name};
      assert s.assets.Keys <= s'.assets.Keys;
      DepsUnchanged(s, s');
    }
  }

  lemma TypeLosesDep(s: Store, capacity: nat, name: string, code: string, deps: seq<string>, testKey: string)
    requires DepsPresent(s)
    ensures !DepsPresent(Apply(s, capacity, RegisterType(name, code, deps, testKey)).0) <==>
            FirstMissing(deps, s.assets) == Some("") && exists d :: d in deps && d != "" && d !in s.assets
  {
    var s' := Apply(s, capacity, RegisterType(name, code, deps, testKey)).0;
    FirstMissingNone(deps, s.assets);
    if s'.types == s.types[name := WidgetType(code, deps)] {
      assert name in s'.types && s'.types[name].assets == deps;
    }
  }

  /** For example, with any payload that fits: a type survives its only asset. */
  lemma DepCanVanish(capacity: nat, b64: string)
    requires 0 < Base64Bytes(b64) <= capacity
    ensures var ops := [RegisterAsset("lib", "", b64, false, None), RegisterType("box", "x", ["lib"], ""), UnregisterAsset("lib")];
            var s := After(capacity, ops);
            "box" in s.types && "lib" in s.types["box"].assets && "lib" !in s.assets
  {
    var a, b, c := RegisterAsset("lib", "", b64, false, None), RegisterType("box", "x", ["lib"], ""), UnregisterAsset("lib");
    assert [a][..0] == [] && [a, b][..1] == [a] && [a, b, c][..2] == [a, b];
    assert "lib" in After(capacity, [a]).assets;
    assert FirstMissing(["lib"], After(capacity, [a]).assets) == None;
  }

  // ---- widgets ------------------------------------------------------------------------------------------------------------------

  /** The type registered by the last add of a widget that is still there. */
  ghost function LiveType(capacity: nat, ops: seq<Op>, key: string): Option<string> {
    if ops == [] then None
    else
      var init, last := ops[..|ops| - 1], ops[|ops| - 1];
      if last.AddWidget? && last.key == key && last.wtype in After(capacity, init).types then Some(last.wtype)
      else if last.RemoveWidget? && last.key == key then None
      else LiveType(capacity, init, key)
  }

  /** The value a property was given last since that add, by the add itself or by an update. */
  ghost function LiveProp(capacity: nat, ops: seq<Op>, key: string, prop: string): Option<string> {
    if ops == [] then None
    else
      var init, last := ops[..|ops| - 1], ops[|ops| - 1];
      if last.AddWidget? && last.key == key && last.wtype in After(capacity, init).types then
        if prop in last.props then Some(last.props[prop]) else None
      else if last.RemoveWidget? && last.key == key then None
      else if last.UpdateWidget? && last.key == key && LiveType(capacity, init, key).Some? && prop in last.props then
        Some(last.props[prop])
      else LiveProp(capacity, init, key, prop)
  }

  /** A widget is live exactly if it was added, with a registered type, and not removed since; its
      type is still registered; and each property has the value it was given last. */
  lemma {:induction false} WidgetsAccumulate(capacity: nat, ops: seq<Op>, key: string)
    ensures var s := After(capacity, ops);
            && (key in s.widgets <==> LiveType(capacity, ops, key).Some?)
            && (key in s.widgets ==>
                  && s.widgets[key].wtype == LiveType(capacity, ops, key).value
                  && s.widgets[key].wtype in s.types
                  && forall p :: LiveProp(capacity, ops, key, p) ==
                                 if p in s.widgets[key].props then Some(s.widgets[key].props[p]) else None)
  {
    if ops == [] {
    } else {
      var init, op := ops[..|ops| - 1], ops[|ops| - 1];
      WidgetsAccumulate(capacity, init, key);
      WidgetStep(After(capacity, init), capacity, op, key);
    }
  }

  /** What one op does to one widget. Types are never taken away. */
  lemma WidgetStep(s: Store, capacity: nat, op: Op, key: string)
    ensures var s' := Apply(s, capacity, op).0;
            && s.types.Keys <= s'.types.Keys
            && (if op.AddWidget? && op.key == key && op.wtype in s.types then
                  key in s'.widgets && s'.widgets[key] == Widget(op.wtype, op.props)
                else if op.RemoveWidget? && op.key == key then key !in s'.widgets
                else
                  && (key in s'.widgets <==> key in s.widgets)
                  && (key in s.widgets ==>
                        s'.widgets[key] ==
                        if op.UpdateWidget? && op.key == key then Widget(s.widgets[key].wtype, s.widgets[key].props + op.props)
                        else s.widgets[key]))
  {
  }

  // ---- from text to asset and back ----------------------------------------------------------------------------------------------

  type Text = seq<Utf8.unit>

  /** A text every UTF-8 decoder gives back: no surrogates, and no byte order mark in front, which a
      TextDecoder drops. */
  predicate Portable(text: Text) {
    (forall i :: 0 <= i < |text| ==> !(0xD800 <= text[i] < 0xE000)) && (text != [] ==> text[0] != 0xFEFF)
  }

  /** What the host provides: atob, which inverts the base64 encoding, and perhaps a TextDecoder,
      which inverts the UTF-8 encoding of portable texts. */
  datatype Host = Host(atob: string -> Bytes, textDecoder: Option<Bytes -> Text>)
  {
    ghost predicate Standard() {
      && (forall b :: atob(Encode(b)) == b)
      && (textDecoder.Some? ==> forall text :: Portable(text) ==> textDecoder.value(Utf8.Encode(text)) == text)
    }
  }

  /** decodeB64: the TextDecoder if there is one, the loop otherwise. */
  function DecodeB64(host: Host, b64: string): Text {
    var bytes := host.atob(StripSpaces(b64));
    if host.textDecoder.Some? then host.textDecoder.value(bytes) else Utf8.Decode(bytes)
  }

  function DecodeAll(host: Host, chunks: seq<string>): Text {
    if chunks == [] then [] else DecodeB64(host, chunks[0]) + DecodeAll(host, chunks[1..])
  }

  /** getAssetSource: each chunk is decoded, then the texts are joined. */
  function Source(host: Host, a: Asset): Text {
    DecodeAll(host, a.chunks)
  }

  function JoinTexts(texts: seq<Text>): Text {
    if texts == [] then [] else texts[0] + JoinTexts(texts[1..])
  }

  /** The chunks are the base64 encodings, whitespace anywhere, of the pieces of a text. */
  ghost predicate Carries(host: Host, chunks: seq<string>, pieces: seq<Text>) {
    && |chunks| == |pieces|
    && (forall i :: 0 <= i < |chunks| ==> StripSpaces(chunks[i]) == Encode(Utf8.Encode(pieces[i])))
    && (host.textDecoder.Some? ==> forall i :: 0 <= i < |pieces| ==> Portable(pieces[i]))
  }

  /** An asset that carries the pieces of a text has that text as its source, on a host with a
      TextDecoder, if the pieces are portable, and on one without, whatever they are. */
  lemma {:induction false} SourceIsText(host: Host, a: Asset, pieces: seq<Text>)
    requires host.Standard() && Carries(host, a.chunks, pieces)
    ensures Source(host, a) == JoinTexts(pieces)
    decreases |pieces|
  {
    if pieces == [] {
    } else {
      Utf8.DecodeEncode(pieces[0]);
      SourceIsText(host, a.(chunks := a.chunks[1..]), pieces[1..]);
    }
  }
}
