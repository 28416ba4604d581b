/** The display-surface store (www/surface-core.js): assets uploaded whole or in chunks under a
    storage cap, widget types that depend on them, and live widgets. */
module Surface {
  import opened Bytes
  import opened Base64Size

  const DEFAULT_MIME := "application/octet-stream"

  type Props = map<string, string>

  datatype Asset = Asset(mime: string, chunks: seq<string>, size: nat)

  /** An upload in progress; seqNo is -1 until a numbered chunk arrives. */
  datatype Upload = Upload(mime: string, chunks: seq<string>, bytes: nat, seqNo: int)

  datatype WidgetType = WidgetType(code: string, assets: seq<string>)

  datatype Widget = Widget(wtype: string, props: Props)

  datatype Op =
    | RegisterAsset(name: string, mime: string, b64: string, append: bool, seqNo: Option<int>)
    | UnregisterAsset(name: string)
    | RegisterType(typeName: string, code: string, deps: seq<string>, testKey: string)
    | AddWidget(key: string, wtype: string, props: Props)
    | UpdateWidget(key: string, props: Props)
    | Publish(key: string, data: string)
    | RemoveWidget(key: string)
    | TestWidget(key: string, wtype: string, props: Props)
    | UnknownOp(key: string)

  datatype Error =
    | UploadAborted
    | EmptyPayload
    | WrongSeq(got: int, want: int)
    | CapExceeded
    | MissingAsset(dep: string)
    | UnknownType(wtype: string)
    | NoWidget
    | BadOp

  datatype Event =
    | AssetReady(name: string, size: nat)
    | AssetRemoved(name: string, freed: nat, usage: int)
    | TypeReady(typeName: string)
    | Render(key: string, wtype: string, props: Props, test: bool)
    | Update(key: string, props: Props)
    | Data(key: string, data: string)
    | Destroy(key: string)
    | Failed(key: string, error: Error)

  datatype Store = Store(
    assets: map<string, Asset>, pending: map<string, Upload>, poisoned: set<string>, usage: int,
    types: map<string, WidgetType>, widgets: map<string, Widget>)

  const EMPTY_STORE := Store(map[], map[], {}, 0, map[], map[])

  function Max0(x: int): nat {
    if x < 0 then 0 else x
  }

  // ---- uploads --------------------------------------------------------------------------------------

  /** A failed chunk drops what arrived of the upload and poisons the name. */
  function Abort(s: Store, name: string): Store {
    s.(usage := if name in s.pending then Max0(s.usage - s.pending[name].bytes) else s.usage,
       pending := s.pending - {name}, poisoned := s.poisoned + {name})
  }

  /** The sequence number the next numbered chunk has to carry. */
  function Wanted(s: Store, name: string): int {
    if name in s.pending then s.pending[name].seqNo + 1 else 0
  }

  /** The bytes of a complete asset that a first chunk would replace. */
  function Replacing(s: Store, name: string): nat {
    if name !in s.pending && name in s.assets then s.assets[name].size else 0
  }

  /** Why a chunk is refused, if it is. */
  function Refusal(s: Store, capacity: nat, name: string, b64: string, seqNo: Option<int>): Option<Error> {
    if name in s.poisoned && seqNo != Some(0) then Some(UploadAborted)
    else if Base64Bytes(b64) == 0 then Some(EmptyPayload)
    else if seqNo.Some? && seqNo.value != Wanted(s, name) then Some(WrongSeq(seqNo.value, Wanted(s, name)))
    else if s.usage - Replacing(s, name) + Base64Bytes(b64) > capacity then Some(CapExceeded)
    else None
  }

  /** The upload with one more chunk, begun if need be. */
  function Extended(s: Store, name: string, mime: string, b64: string, seqNo: Option<int>): Upload {
    var up := if name in s.pending then s.pending[name]
              else Upload(if mime == "" then DEFAULT_MIME else mime, [], 0, -1);
    Upload(up.mime, up.chunks + [b64], up.bytes + Max0(Base64Bytes(b64)), if seqNo.Some? then seqNo.value else up.seqNo)
  }

  /** An accepted chunk: the old asset goes with the first one, and the last one completes. */
  function AcceptChunk(s: Store, name: string, mime: string, b64: string, append: bool, seqNo: Option<int>): (Store, seq<Event>) {
    var bytes := Max0(Base64Bytes(b64));
    var up' := Extended(s, name, mime, b64, seqNo);
    var assets := if Replacing(s, name) > 0 then s.assets - {name} else s.assets;
    var usage := s.usage - Replacing(s, name) + bytes;
    if append then (s.(assets := assets, pending := s.pending[name := up'], usage := usage), [])
    else
      (s.(assets := assets[name := Asset(up'.mime, up'.chunks, up'.bytes)], pending := s.pending - {name}, usage := usage),
       [AssetReady(name, up'.bytes)])
  }

  function OnRegister(s: Store, capacity: nat, name: string, mime: string, b64: string, append: bool, seqNo: Option<int>): (Store, seq<Event>) {
    var refusal := Refusal(s, capacity, name, b64, seqNo);
    var s1 := if seqNo == Some(0) then s.(poisoned := s.poisoned - {name}) else s;
    if refusal == Some(UploadAborted) then (s, [Failed(name, UploadAborted)])
    else if refusal.Some? then (Abort(s1, name), [Failed(name, refusal.value)])
    else AcceptChunk(s1, name, mime, b64, append, seqNo)
  }

  function Freed(s: Store, name: string): nat {
    (if name in s.pending then s.pending[name].bytes else 0) + (if name in s.assets then s.assets[name].size else 0)
  }

  function OnUnregister(s: Store, name: string): (Store, seq<Event>) {
    var usage := Max0(s.usage - Freed(s, name));
    (s.(assets := s.assets - {name}, pending := s.pending - {name}, poisoned := s.poisoned - {name}, usage := usage),
     [AssetRemoved(name, Freed(s, name), usage)])
  }

  // ---- types and widgets ------------------------------------------------------------------------------

  function FirstMissing(deps: seq<string>, assets: map<string, Asset>): Option<string> {
    if deps == [] then None else if deps[0] !in assets then Some(deps[0]) else FirstMissing(deps[1..], assets)
  }

  function Apply(s: Store, capacity: nat, op: Op): (Store, seq<Event>) {
    match op
    case RegisterAsset(name, mime, b64, append, seqNo) => OnRegister(s, capacity, name, mime, b64, append, seqNo)
    case UnregisterAsset(name) => OnUnregister(s, name)
    case RegisterType(name, code, deps, testKey) =>
      var missing := FirstMissing(deps, s.assets);
      // An empty dependency name is falsy, so a missing one goes unnoticed.
      if missing.Some? && missing.value != "" then (s, [Failed(testKey, MissingAsset(missing.value))])
      else (s.(types := s.types[name := WidgetType(code, deps)]), [TypeReady(name)])
    case AddWidget(key, wtype, props) =>
      if wtype !in s.types then (s, [Failed(key, UnknownType(wtype))])
      else (s.(widgets := s.widgets[key := Widget(wtype, props)]), [Render(key, wtype, props, false)])
    case UpdateWidget(key, props) =>
      if key !in s.widgets then (s, [Failed(key, NoWidget)])
      else
        var w := s.widgets[key];
        (s.(widgets := s.widgets[key := Widget(w.wtype, w.props + props)]), [Update(key, props)])
    case Publish(key, data) =>
      if key !in s.widgets then (s, [Failed(key, NoWidget)]) else (s, [Data(key, data)])
    case RemoveWidget(key) =>
      if key !in s.widgets then (s, []) else (s.(widgets := s.widgets - {key}), [Destroy(key)])
    case TestWidget(key, wtype, props) =>
      if wtype !in s.types then (s, [Failed(key, UnknownType(wtype))]) else (s, [Render(key, wtype, props, true)])
    case UnknownOp(key) => (s, [Failed(key, BadOp)])
  }

  // ---- the object -----------------------------------------------------------------------------------------

  class SurfaceCore {
    const capacity: nat
    var assets: map<string, Asset>
    var types: map<string, WidgetType>
    var widgets: map<string, Widget>
    var usage: int
    var emits: seq<Event>
    var pending: map<string, Upload>
    var poisoned: set<string>

    ghost function State(): Store
      reads this
    {
      Store(assets, pending, poisoned, usage, types, widgets)
    }

    constructor (capacity: nat)
      ensures this.capacity == capacity && State() == EMPTY_STORE && emits == []
    {
      this.capacity := capacity;
      assets, pending, poisoned, usage, types, widgets, emits := map[], map[], {}, 0, map[], map[], [];
    }

    method Emit(e: Event)
      modifies `emits
      ensures emits == old(emits) + [e] && (old(emits) == [] ==> emits == [e])
    {
      emits := emits + [e];
    }

    method AbortUpload(name: string, error: Error)
      modifies this
      requires emits == []
      ensures State() == Abort(old(State()), name) && emits == [Failed(name, error)]
    {
      if name in pending {
        usage := Max0(usage - pending[name].bytes);
        pending := pending - {name};
      }
      assert pending == old(pending) - {name};
      poisoned := poisoned + {name};
      Emit(Failed(name, error));
    }

    method FinishAsset(name: string)
      requires name in pending && emits == []
      modifies this
      ensures State() == old(State()).(
                pending := old(pending) - {name},
                assets := old(assets)[name := Asset(old(pending)[name].mime, old(pending)[name].chunks, old(pending)[name].bytes)])
      ensures emits == [AssetReady(name, old(pending)[name].bytes)]
    {
      var p := pending[name];
      pending := pending - {name};
      assets := assets[name := Asset(p.mime, p.chunks, p.bytes)];
      Emit(AssetReady(name, p.bytes));
    }

    method Register(name: string, mime: string, b64: string, append: bool, seqNo: Option<int>)
      requires emits == []
      modifies this
      ensures State() == OnRegister(old(State()), capacity, name, mime, b64, append, seqNo).0
      ensures emits == OnRegister(old(State()), capacity, name, mime, b64, append, seqNo).1
    {
      var bytes := Base64Bytes(b64);
      if name in poisoned {
        if seqNo == Some(0) {
          poisoned := poisoned - {name};
        } else {
          Emit(Failed(name, UploadAborted));
          return;
        }
      }
      assert poisoned == if seqNo == Some(0) then old(poisoned) - {name} else old(poisoned);
      if bytes == 0 {
        AbortUpload(name, EmptyPayload);
        return;
      }
      if seqNo.Some? {
        var want := if name in pending then pending[name].seqNo + 1 else 0;
        if seqNo.value != want {
          AbortUpload(name, WrongSeq(seqNo.value, want));
          return;
        }
      }
      var replacing := if name !in pending && name in assets then assets[name].size else 0;
      if usage - replacing + bytes > capacity {
        AbortUpload(name, CapExceeded);
        return;
      }
      StoreChunk(name, mime, b64, append, seqNo, replacing);
    }

    method StoreChunk(name: string, mime: string, b64: string, append: bool, seqNo: Option<int>, replacing: nat)
      requires emits == [] && replacing == Replacing(State(), name)
      modifies this
      ensures State() == AcceptChunk(old(State()), name, mime, b64, append, seqNo).0
      ensures emits == AcceptChunk(old(State()), name, mime, b64, append, seqNo).1
    {
      var bytes := Max0(Base64Bytes(b64));
      if replacing > 0 {
        usage := usage - replacing;
        assets := assets - {name};
      }
      AddChunk(name, mime, b64, seqNo);
      usage := usage + bytes;
      if !append {
        FinishAsset(name);
        assert pending == old(pending) - {name};
      }
    }

    method AddChunk(name: string, mime: string, b64: string, seqNo: Option<int>)
      modifies `pending
      ensures pending == old(pending)[name := Extended(old(State()), name, mime, b64, seqNo)]
    {
      if name !in pending {
        pending := pending[name := Upload(if mime == "" then DEFAULT_MIME else mime, [], 0, -1)];
      }
      var p := pending[name];
      p := p.(chunks := p.chunks + [b64]);
      p := p.(bytes := p.bytes + Max0(Base64Bytes(b64)));
      if seqNo.Some? {
        p := p.(seqNo := seqNo.value);
      }
      pending := pending[name := p];
    }

    method Unregister(name: string)
      requires emits == []
      modifies this
      ensures State() == OnUnregister(old(State()), name).0
      ensures emits == OnUnregister(old(State()), name).1
    {
      var freed: nat := 0;
      if name in pending {
        freed := freed + pending[name].bytes;
        pending := pending - {name};
      }
      poisoned := poisoned - {name};
      if name in assets {
        freed := freed + assets[name].size;
        assets := assets - {name};
      }
      usage := Max0(usage - freed);
      Emit(AssetRemoved(name, freed, usage));
      assert pending == old(pending) - {name} && assets == old(assets) - {name};
    }

    /** The switch; the events of one op are taken out of the emit list at its end. */
    method ApplyOp(op: Op) returns (events: seq<Event>)
      requires emits == []
      modifies this
      ensures emits == []
      ensures State() == Apply(old(State()), capacity, op).0
      ensures events == Apply(old(State()), capacity, op).1
      ensures op.Publish? ==>
                events == [if op.key in old(widgets) then Data(op.key, op.data) else Failed(op.key, NoWidget)]
      ensures op.UpdateWidget? ==>
                events == [if op.key in old(widgets) then Update(op.key, op.props) else Failed(op.key, NoWidget)]
    {
      match op {
        case RegisterAsset(name, mime, b64, append, seqNo) =>
          Register(name, mime, b64, append, seqNo);
        case UnregisterAsset(name) =>
          Unregister(name);
        case RegisterType(name, code, deps, testKey) =>
          var missing := FirstMissing(deps, assets);
          if missing.Some? && missing.value != "" {
            Emit(Failed(testKey, MissingAsset(missing.value)));
          } else {
            types := types[name := WidgetType(code, deps)];
            Emit(TypeReady(name));
          }
        case AddWidget(key, wtype, props) =>
          if wtype !in types {
            Emit(Failed(key, UnknownType(wtype)));
          } else {
            widgets := widgets[key := Widget(wtype, props)];
            Emit(Render(key, wtype, props, false));
          }
        case UpdateWidget(key, props) =>
          if key !in widgets {
            Emit(Failed(key, NoWidget));
          } else {
            widgets := widgets[key := widgets[key].(props := widgets[key].props + props)];
            Emit(Update(key, props));
          }
        case Publish(key, data) =>
          if key !in widgets {
            Emit(Failed(key, NoWidget));
          } else {
            Emit(Data(key, data));
          }
        case RemoveWidget(key) =>
          if key in widgets {
            widgets := widgets - {key};
            Emit(Destroy(key));
          }
        case TestWidget(key, wtype, props) =>
          if wtype !in types {
            Emit(Failed(key, UnknownType(wtype)));
          } else {
            Emit(Render(key, wtype, props, true));
          }
        case UnknownOp(key) =>
          Emit(Failed(key, BadOp));
      }
      events, emits := emits, [];
    }
  }
}
