/** Events and builders as values: each has fields of its own, and nothing is shared.
    This is what the objects of module Fields are proved to behave like. */
module FieldModel {
  import opened Bytes
  import opened Types

  type Value = int

  type Contents = map<string, Value>

  datatype Item = Item(key: string, value: Value)

  /** A named function that is asked for a value whenever an event is created. */
  datatype DynamicField = DynamicField(name: string, fn: int -> Value)

  datatype Destination = Destination(apiHost: string, writeKey: string, dataset: string, sampleRate: nat, metadata: int)

  /** What Add is given, as reflection finds it: a struct with its exported fields, a
      map with its keys, when they can be made strings, or something else. */
  datatype Addable = Struct(items: seq<Item>) | MapOf(keysOk: bool, items: seq<Item>) | Unaddable

  datatype EventState = EventState(fields: Contents, sent: bool, to: Destination)

  datatype BuilderState = BuilderState(fields: Contents, dynamic: seq<DynamicField>, to: Destination)

  /** An event as the transmission gets it. */
  datatype Handover = Handover(fields: Contents, to: Destination)

  datatype Sender = Honeycomb | Mock | OtherSender

  datatype Failure = NotAddable | BadKey | EmptyEvent | NoHost | NoKey | NoDataset

  datatype Result = Done | Failed(why: Failure)

  datatype World = World(
    sender: Sender,
    events: seq<EventState>,
    builders: seq<BuilderState>,
    callers: seq<Contents>,
    handed: seq<Handover>,
    dropped: seq<Response>)

  function Start(sender: Sender, to: Destination): World
  {
    World(sender, [], [BuilderState(map[], [], to)], [], [], [])
  }

  datatype Place = OnEvent(i: nat) | OnBuilder(i: nat)

  /** A map that the caller made, or that an event has shown. */
  datatype Source = CallerMap(i: nat) | ShownBy(i: nat)

  datatype Op =
    | AddField(at: Place, key: string, value: Value)
    | AddFields(at: Place, from: Source)
    | Add(at: Place, data: Addable)
    | AddFunc(at: Place, items: seq<Item>)
    | MakeMap(contents: Contents)
    | ChangeMap(i: nat, key: string, value: Value)
    | AddDynamicField(b: nat, field: DynamicField)
    | NewEventSized(b: nat, size: nat, now: int)
    | Clone(b: nat)
    | Address(at: Place, to: Destination)
    | Send(e: nat, roll: nat)
    | SendPresampled(e: nat)

  predicate Adds(op: Op) { op.AddField? || op.AddFields? || op.Add? || op.AddFunc? }

  predicate Exists(w: World, at: Place)
  {
    match at
    case OnEvent(i) => i < |w.events|
    case OnBuilder(i) => i < |w.builders|
  }

  predicate Shown(w: World, from: Source)
  {
    match from
    case CallerMap(i) => i < |w.callers|
    case ShownBy(i) => i < |w.events|
  }

  /** The operation speaks only of things that exist. */
  predicate Possible(w: World, op: Op)
  {
    match op
    case AddField(at, _, _) => Exists(w, at)
    case AddFields(at, from) => Exists(w, at) && Shown(w, from)
    case Add(at, _) => Exists(w, at)
    case AddFunc(at, _) => Exists(w, at)
    case MakeMap(_) => true
    case ChangeMap(i, _, _) => i < |w.callers|
    case AddDynamicField(b, _) => b < |w.builders|
    case NewEventSized(b, _, _) => b < |w.builders|
    case Clone(b) => b < |w.builders|
    case Address(at, _) => Exists(w, at)
    case Send(e, roll) => e < |w.events| && (w.events[e].to.sampleRate > 1 ==> roll < w.events[e].to.sampleRate)
    case SendPresampled(e) => e < |w.events|
  }

  // ---- additions ----

  function AddAll(m: Contents, items: seq<Item>): Contents
  {
    if items == [] then m
    else
      var last := items[|items| - 1];
      AddAll(m, items[..|items| - 1])[last.key := last.value]
  }

  function Overlay(m: Contents, dynamic: seq<DynamicField>, now: int): Contents
  {
    if dynamic == [] then m
    else
      var last := dynamic[|dynamic| - 1];
      Overlay(m, dynamic[..|dynamic| - 1], now)[last.name := last.fn(now)]
  }

  function SourceOf(w: World, from: Source): Contents
    requires Shown(w, from)
  {
    match from
    case CallerMap(i) => w.callers[i]
    case ShownBy(i) => w.events[i].fields
  }

  /** What Add adds: a map whose keys cannot be made strings fails at its first entry. */
  function Found(addable: Addable): (Contents, Result)
  {
    match addable
    case Struct(items) => (AddAll(map[], items), Done)
    case MapOf(keysOk, items) =>
      if keysOk || items == [] then (AddAll(map[], items), Done) else (map[], Failed(BadKey))
    case Unaddable => (map[], Failed(NotAddable))
  }

  /** What an adding operation adds, and how it ends. */
  function Addition(w: World, op: Op): (Contents, Result)
    requires Adds(op) && Possible(w, op)
  {
    match op
    case AddField(_, k, v) => (map[k := v], Done)
    case AddFields(_, from) => (SourceOf(w, from), Done)
    case Add(_, addable) => Found(addable)
    case AddFunc(_, items) => (AddAll(map[], items), Done)
  }

  function ApplyAdd(w: World, op: Op): (World, Result)
    requires Adds(op) && Possible(w, op)
  {
    var (added, r) := Addition(w, op);
    match op.at
    case OnBuilder(i) => (w.(builders := w.builders[i := w.builders[i].(fields := w.builders[i].fields + added)]), r)
    case OnEvent(i) =>
      if w.events[i].sent then (w, Done)
      else (w.(events := w.events[i := w.events[i].(fields := w.events[i].fields + added)]), r)
  }

  // ---- sending ----

  predicate Drops(sampleRate: nat, roll: nat) { sampleRate > 1 && roll != 0 }

  function Refusal(sender: Sender, e: EventState): Option<Failure>
  {
    if |e.fields| == 0 then Some(EmptyEvent)
    else if sender != OtherSender && e.to.apiHost == "" then Some(NoHost)
    else if sender != OtherSender && e.to.writeKey == "" then Some(NoKey)
    else if e.to.dataset == "" then Some(NoDataset)
    else None
  }

  function ApplySendPresampled(w: World, e: nat): (World, Result)
    requires e < |w.events|
  {
    match Refusal(w.sender, w.events[e])
    case Some(why) => (w, Failed(why))
    case None =>
      (w.(events := w.events[e := w.events[e].(sent := true)],
          handed := w.handed + [Handover(w.events[e].fields, w.events[e].to)]), Done)
  }

  function ApplySend(w: World, e: nat, roll: nat): (World, Result)
    requires e < |w.events|
  {
    if Drops(w.events[e].to.sampleRate, roll) then
      (w.(dropped := w.dropped + [ErrorResponse(SampledOut, w.events[e].to.metadata)]), Done)
    else ApplySendPresampled(w, e)
  }

  function ApplyAddress(w: World, at: Place, to: Destination): World
    requires Exists(w, at)
  {
    match at
    case OnEvent(i) => w.(events := w.events[i := w.events[i].(to := to)])
    case OnBuilder(i) => w.(builders := w.builders[i := w.builders[i].(to := to)])
  }

  function NewEventOf(b: BuilderState, now: int): EventState
  {
    EventState(Overlay(b.fields, b.dynamic, now), false, b.to.(metadata := 0))
  }

  function CloneOf(b: BuilderState): BuilderState
  {
    BuilderState(b.fields, b.dynamic, b.to)
  }

  function Apply(w: World, op: Op): (World, Result)
    requires Possible(w, op)
  {
    if Adds(op) then ApplyAdd(w, op)
    else
      match op
      case MakeMap(contents) => (w.(callers := w.callers + [contents]), Done)
      case ChangeMap(i, k, v) => (w.(callers := w.callers[i := w.callers[i][k := v]]), Done)
      case AddDynamicField(b, f) =>
        (w.(builders := w.builders[b := w.builders[b].(dynamic := w.builders[b].dynamic + [f])]), Done)
      case NewEventSized(b, _, now) => (w.(events := w.events + [NewEventOf(w.builders[b], now)]), Done)
      case Clone(b) => (w.(builders := w.builders + [CloneOf(w.builders[b])]), Done)
      case Address(at, to) => (ApplyAddress(w, at, to), Done)
      case Send(e, roll) => ApplySend(w, e, roll)
      case SendPresampled(e) => ApplySendPresampled(w, e)
  }

  function Run(w: World, ops: seq<Op>): Option<World>
  {
    if ops == [] then Some(w)
    else
      match Run(w, ops[..|ops| - 1])
      case None => None
      case Some(w') => if Possible(w', ops[|ops| - 1]) then Some(Apply(w', ops[|ops| - 1]).0) else None
  }

  lemma {:induction false} PrefixRuns(w: World, ops: seq<Op>, i: nat)
    requires Run(w, ops).Some? && i <= |ops|
    ensures Run(w, ops[..i]).Some?
    decreases |ops|
  {
    if i == |ops| {
      assert ops[..i] == ops;
    } else {
      assert ops[..|ops| - 1][..i] == ops[..i];
      PrefixRuns(w, ops[..|ops| - 1], i);
    }
  }

  // ---- additions, looked up ----

  /** The value that the last item of this key gives. */
  function LastItem(items: seq<Item>, k: string): Option<Value>
  {
    if items == [] then None
    else if items[|items| - 1].key == k then Some(items[|items| - 1].value)
    else LastItem(items[..|items| - 1], k)
  }

  function Lookup(m: Contents, k: string): Option<Value>
  {
    if k in m then Some(m[k]) else None
  }

  function Or(a: Option<Value>, b: Option<Value>): Option<Value>
  {
    if a.Some? then a else b
  }

  /** Additions one by one: the last one of each key wins, over what was there too. */
  lemma {:induction false} AddAllLookup(m: Contents, items: seq<Item>, k: string)
    ensures Lookup(AddAll(m, items), k) == Or(LastItem(items, k), Lookup(m, k))
  {
    if items != [] {
      AddAllLookup(m, items[..|items| - 1], k);
    }
  }

  /** Adding items one by one is merging the map that they make. */
  lemma {:induction false} AddAllMerges(m: Contents, items: seq<Item>)
    ensures AddAll(m, items) == m + AddAll(map[], items)
  {
    if items != [] {
      AddAllMerges(m, items[..|items| - 1]);
    }
  }

  predicate Lists(items: seq<Item>, m: Contents)
  {
    (forall i :: 0 <= i < |items| ==> items[i].key in m && m[items[i].key] == items[i].value) &&
    (forall k :: k in m ==> LastItem(items, k).Some?)
  }

  /** Adding the entries of a map one by one, in whatever order, is merging the map. */
  lemma OneByOne(m: Contents, items: seq<Item>, added: Contents)
    requires Lists(items, added)
    ensures AddAll(m, items) == m + added
  {
    forall k ensures Lookup(AddAll(m, items), k) == Lookup(m + added, k) {
      AddAllLookup(m, items, k);
      LastIsListed(items, k);
    }
    assert forall k :: k in AddAll(m, items) <==> Lookup(AddAll(m, items), k).Some?;
    assert forall k :: k in m + added <==> Lookup(m + added, k).Some?;
  }

  lemma {:induction false} LastIsListed(items: seq<Item>, k: string)
    ensures LastItem(items, k).Some? ==> Item(k, LastItem(items, k).value) in items
  {
    if items != [] {
      LastIsListed(items[..|items| - 1], k);
    }
  }

  function FieldsAt(w: World, at: Place): Contents
    requires Exists(w, at)
  {
    match at
    case OnEvent(i) => w.events[i].fields
    case OnBuilder(i) => w.builders[i].fields
  }

  predicate IsClosed(w: World, at: Place)
    requires Exists(w, at)
  {
    at.OnEvent? && w.events[at.i].sent
  }

  /** The items that an addition brings in their order, if it brings items: those of
      a struct, of a map whose keys can be made strings, or of a function. */
  function ItemsOf(op: Op): Option<seq<Item>>
  {
    match op
    case AddField(_, key, value) => Some([Item(key, value)])
    case Add(_, Struct(items)) => Some(items)
    case Add(_, MapOf(true, items)) => Some(items)
    case AddFunc(_, items) => Some(items)
    case _ => None
  }

  /** What an addition does to any key: the last item of that key wins over what was
      there, and so does an entry of an added map. What cannot be added is an error and
      changes nothing; and nothing at all happens to an event that has been sent. */
  lemma AdditionLookup(w: World, op: Op, k: string)
    requires Adds(op) && Possible(w, op)
    ensures Exists(Apply(w, op).0, op.at)
    ensures var (w', r) := Apply(w, op);
            var before, after := Lookup(FieldsAt(w, op.at), k), Lookup(FieldsAt(w', op.at), k);
            if IsClosed(w, op.at) then w' == w && r == Done
            else if ItemsOf(op).Some? then after == Or(LastItem(ItemsOf(op).value, k), before) && r == Done
            else if op.AddFields? then
              var from := if op.from.CallerMap? then w.callers[op.from.i] else w.events[op.from.i].fields;
              after == Or(Lookup(from, k), before) && r == Done
            else if op.data.Unaddable? then after == before && r == Failed(NotAddable)
            else after == before && r == if op.data.items == [] then Done else Failed(BadKey)
  {
    AddAllLookup(map[], if ItemsOf(op).Some? then ItemsOf(op).value else [], k);
    if op.AddField? {
      assert LastItem([Item(op.key, op.value)], k) == if k == op.key then Some(op.value) else None by {
        assert [Item(op.key, op.value)][..0] == [];
      }
    }
  }

  function LastDynamic(dynamic: seq<DynamicField>, k: string, now: int): Option<Value>
  {
    if dynamic == [] then None
    else if dynamic[|dynamic| - 1].name == k then Some(dynamic[|dynamic| - 1].fn(now))
    else LastDynamic(dynamic[..|dynamic| - 1], k, now)
  }

  lemma {:induction false} OverlayLookup(m: Contents, dynamic: seq<DynamicField>, now: int, k: string)
    ensures Lookup(Overlay(m, dynamic, now), k) == Or(LastDynamic(dynamic, k, now), Lookup(m, k))
  {
    if dynamic != [] {
      OverlayLookup(m, dynamic[..|dynamic| - 1], now, k);
    }
  }

  // ---- builders and their paths ----

  /** What has been done on the path to a builder: additions of fields and of functions. */
  datatype PathStep = Static(added: Contents) | Dynamic(field: DynamicField)

  function StepFor(w: World, op: Op, i: nat): seq<PathStep>
    requires Possible(w, op)
  {
    if Adds(op) && op.at == OnBuilder(i) then [Static(Addition(w, op).0)]
    else if op.AddDynamicField? && op.b == i then [Dynamic(op.field)]
    else []
  }

  /** The path to builder i: a clone starts with a copy of its origin's path, and from
      then on each builder has its own. */
  function Path(w: World, ops: seq<Op>, i: nat): seq<PathStep>
    requires Run(w, ops).Some?
    decreases |ops|
  {
    if ops == [] then []
    else
      var front, op := ops[..|ops| - 1], ops[|ops| - 1];
      var before := Run(w, front).value;
      if op.Clone? && i == |before.builders| then Path(w, front, op.b)
      else Path(w, front, i) + StepFor(before, op, i)
  }

  function LastStatic(path: seq<PathStep>, k: string): Option<Value>
  {
    if path == [] then None
    else
      var last := path[|path| - 1];
      if last.Static? && k in last.added then Some(last.added[k]) else LastStatic(path[..|path| - 1], k)
  }

  function Dynamics(path: seq<PathStep>): seq<DynamicField>
  {
    if path == [] then []
    else
      var last := path[|path| - 1];
      Dynamics(path[..|path| - 1]) + (if last.Dynamic? then [last.field] else [])
  }

  /** A builder holds what its path says: per key the last static value, and the
      functions in their order. */
  ghost predicate FollowsPath(b: BuilderState, path: seq<PathStep>)
  {
    (forall k :: Lookup(b.fields, k) == LastStatic(path, k)) && b.dynamic == Dynamics(path)
  }

  lemma StaticMore(b: BuilderState, path: seq<PathStep>, added: Contents)
    requires FollowsPath(b, path)
    ensures FollowsPath(b.(fields := b.fields + added), path + [Static(added)])
  {
    assert (path + [Static(added)])[..|path|] == path;
    forall k ensures Lookup(b.fields + added, k) == LastStatic(path + [Static(added)], k) {
      assert Lookup(b.fields, k) == LastStatic(path, k);
    }
  }

  lemma DynamicMore(b: BuilderState, path: seq<PathStep>, f: DynamicField)
    requires FollowsPath(b, path)
    ensures FollowsPath(b.(dynamic := b.dynamic + [f]), path + [Dynamic(f)])
  {
    assert (path + [Dynamic(f)])[..|path|] == path;
    forall k ensures Lookup(b.fields, k) == LastStatic(path + [Dynamic(f)], k) {
      assert Lookup(b.fields, k) == LastStatic(path, k);
    }
  }

  /** In every run every builder follows its path. */
  lemma {:induction false} BuildersFollowPaths(sender: Sender, to: Destination, ops: seq<Op>, i: nat)
    requires Run(Start(sender, to), ops).Some? && i < |Run(Start(sender, to), ops).value.builders|
    ensures FollowsPath(Run(Start(sender, to), ops).value.builders[i], Path(Start(sender, to), ops, i))
    decreases |ops|
  {
    if ops != [] {
      var w0, front, op := Start(sender, to), ops[..|ops| - 1], ops[|ops| - 1];
      var w := Run(w0, front).value;
      if op.Clone? && i == |w.builders| {
        BuildersFollowPaths(sender, to, front, op.b);
      } else {
        BuildersFollowPaths(sender, to, front, i);
        BuilderStep(w, op, i, Path(w0, front, i));
      }
    }
  }

  lemma BuilderStep(w: World, op: Op, i: nat, path: seq<PathStep>)
    requires Possible(w, op) && i < |w.builders| && FollowsPath(w.builders[i], path)
    ensures i < |Apply(w, op).0.builders|
    ensures FollowsPath(Apply(w, op).0.builders[i], path + StepFor(w, op, i))
  {
    var b := w.builders[i];
    if Adds(op) && op.at == OnBuilder(i) {
      StaticMore(b, path, Addition(w, op).0);
    } else if op.AddDynamicField? && op.b == i {
      DynamicMore(b, path, op.field);
    } else {
      assert path + [] == path;
    }
  }

  /** In every run an event starts out with the static fields on its builder's path,
      overlaid by the dynamic fields in their order: per key the last one wins. */
  lemma EventStartsFromPath(sender: Sender, to: Destination, ops: seq<Op>, b: nat, size: nat, now: int, k: string)
    requires Run(Start(sender, to), ops).Some? && b < |Run(Start(sender, to), ops).value.builders|
    ensures var w := Run(Start(sender, to), ops).value;
            var path := Path(Start(sender, to), ops, b);
            var made := Apply(w, NewEventSized(b, size, now)).0;
            |made.events| == |w.events| + 1 &&
            Lookup(made.events[|w.events|].fields, k) ==
            Or(LastDynamic(Dynamics(path), k, now), LastStatic(path, k))
  {
    var w := Run(Start(sender, to), ops).value;
    BuildersFollowPaths(sender, to, ops, b);
    OverlayLookup(w.builders[b].fields, w.builders[b].dynamic, now, k);
  }

  /** A new event has its builder's destination, no metadata of its own, and has not been
      sent; a clone has the destination, the fields and the functions. */
  lemma NewcomersInherit(w: World, b: nat, size: nat, now: int)
    requires b < |w.builders|
    ensures var made, from := Apply(w, NewEventSized(b, size, now)).0.events, w.builders[b].to;
            |made| == |w.events| + 1 && made[..|w.events|] == w.events &&
            var to := made[|w.events|].to;
            to.apiHost == from.apiHost && to.writeKey == from.writeKey && to.dataset == from.dataset &&
            to.sampleRate == from.sampleRate && to.metadata == 0 && !made[|w.events|].sent
    ensures var made := Apply(w, Clone(b)).0.builders;
            |made| == |w.builders| + 1 && made[..|w.builders|] == w.builders &&
            made[|w.builders|].to == w.builders[b].to && made[|w.builders|].fields == w.builders[b].fields &&
            made[|w.builders|].dynamic == w.builders[b].dynamic
  {
    assert (w.events + [NewEventOf(w.builders[b], now)])[..|w.events|] == w.events;
    assert (w.builders + [CloneOf(w.builders[b])])[..|w.builders|] == w.builders;
  }

  predicate Touches(op: Op, i: nat)
  {
    (Adds(op) && op.at == OnBuilder(i)) || (op.AddDynamicField? && op.b == i) || (op.Address? && op.at == OnBuilder(i))
  }

  /** What is done to other builders, clones and origins included, does not show. */
  lemma {:induction false} BuildersStayApart(w: World, ops: seq<Op>, i: nat)
    requires Run(w, ops).Some? && i < |w.builders|
    requires forall j :: 0 <= j < |ops| ==> !Touches(ops[j], i)
    ensures i < |Run(w, ops).value.builders| && Run(w, ops).value.builders[i] == w.builders[i]
    decreases |ops|
  {
    if ops != [] {
      BuildersStayApart(w, ops[..|ops| - 1], i);
      assert !Touches(ops[|ops| - 1], i);
    }
  }

  // ---- callers' maps and destinations ----

  function Count(kind: Op -> bool, ops: seq<Op>): nat
  {
    if ops == [] then 0 else Count(kind, ops[..|ops| - 1]) + (if kind(ops[|ops| - 1]) then 1 else 0)
  }

  predicate MakesMap(op: Op) { op.MakeMap? }

  predicate MakesEvent(op: Op) { op.NewEventSized? }

  predicate MakesBuilder(op: Op) { op.Clone? }

  /** What was last written under a key into the i-th map that a caller made. */
  function LastWritten(ops: seq<Op>, i: nat, k: string): Option<Value>
  {
    if ops == [] then None
    else
      var front := ops[..|ops| - 1];
      match ops[|ops| - 1]
      case MakeMap(contents) => if i == Count(MakesMap, front) then Lookup(contents, k) else LastWritten(front, i, k)
      case ChangeMap(j, key, v) => if j == i && key == k then Some(v) else LastWritten(front, i, k)
      case _ => LastWritten(front, i, k)
  }

  /** In every run a map that a caller made holds what the caller wrote into it, and
      nothing else: no operation of the library writes to it. */
  lemma {:induction false} CallersKeepTheirMaps(sender: Sender, to: Destination, ops: seq<Op>, i: nat, k: string)
    requires Run(Start(sender, to), ops).Some?
    ensures var callers := Run(Start(sender, to), ops).value.callers;
            |callers| == Count(MakesMap, ops) && (i < |callers| ==> Lookup(callers[i], k) == LastWritten(ops, i, k))
    decreases |ops|
  {
    if ops != [] {
      CallersKeepTheirMaps(sender, to, ops[..|ops| - 1], i, k);
    }
  }

  /** The destination last given to a place. An event starts with its builder's at that
      time, without metadata, and a clone with its origin's. */
  function LastAddress(to: Destination, ops: seq<Op>, at: Place): Destination
    decreases |ops|
  {
    if ops == [] then to
    else
      var front := ops[..|ops| - 1];
      match ops[|ops| - 1]
      case Address(place, given) => if place == at then given else LastAddress(to, front, at)
      case NewEventSized(b, _, _) =>
        if at == OnEvent(Count(MakesEvent, front)) then LastAddress(to, front, OnBuilder(b)).(metadata := 0)
        else LastAddress(to, front, at)
      case Clone(b) =>
        if at == OnBuilder(1 + Count(MakesBuilder, front)) then LastAddress(to, front, OnBuilder(b))
        else LastAddress(to, front, at)
      case _ => LastAddress(to, front, at)
  }

  function DestinationAt(w: World, at: Place): Destination
    requires Exists(w, at)
  {
    match at
    case OnEvent(i) => w.events[i].to
    case OnBuilder(i) => w.builders[i].to
  }

  lemma StepMakes(w: World, op: Op)
    requires Possible(w, op)
    ensures |Apply(w, op).0.events| == |w.events| + (if op.NewEventSized? then 1 else 0)
    ensures |Apply(w, op).0.builders| == |w.builders| + (if op.Clone? then 1 else 0)
  {
  }

  lemma {:induction false} PlacesMade(sender: Sender, to: Destination, ops: seq<Op>)
    requires Run(Start(sender, to), ops).Some?
    ensures var w := Run(Start(sender, to), ops).value;
            |w.events| == Count(MakesEvent, ops) && |w.builders| == 1 + Count(MakesBuilder, ops)
    decreases |ops|
  {
    if ops != [] {
      var front := ops[..|ops| - 1];
      PlacesMade(sender, to, front);
      StepMakes(Run(Start(sender, to), front).value, ops[|ops| - 1]);
    }
  }

  lemma DestinationStep(w: World, op: Op, at: Place)
    requires Possible(w, op) && Exists(Apply(w, op).0, at)
    ensures var made := DestinationAt(Apply(w, op).0, at);
            if op.Address? && op.at == at then made == op.to
            else if op.NewEventSized? && at == OnEvent(|w.events|) then made == w.builders[op.b].to.(metadata := 0)
            else if op.Clone? && at == OnBuilder(|w.builders|) then made == w.builders[op.b].to
            else Exists(w, at) && made == DestinationAt(w, at)
  {
  }

  /** In every run each event and builder has the destination last given to it. */
  lemma {:induction false} DestinationsFollow(sender: Sender, to: Destination, ops: seq<Op>, at: Place)
    requires Run(Start(sender, to), ops).Some?
    ensures var w := Run(Start(sender, to), ops).value;
            |w.events| == Count(MakesEvent, ops) && |w.builders| == 1 + Count(MakesBuilder, ops) &&
            (Exists(w, at) ==> DestinationAt(w, at) == LastAddress(to, ops, at))
    decreases |ops|
  {
    PlacesMade(sender, to, ops);
    if ops != [] {
      var front, op := ops[..|ops| - 1], ops[|ops| - 1];
      var before := Run(Start(sender, to), front).value;
      PlacesMade(sender, to, front);
      DestinationsFollow(sender, to, front, at);
      if Exists(Apply(before, op).0, at) {
        DestinationStep(before, op, at);
      }
      if op.NewEventSized? {
        DestinationsFollow(sender, to, front, OnBuilder(op.b));
      } else if op.Clone? {
        DestinationsFollow(sender, to, front, OnBuilder(op.b));
      }
    }
  }

  // ---- sent events ----

  /** What was sent or handed over by then stays as it was. */
  ghost predicate Keeps(before: World, after: World)
  {
    before.handed <= after.handed && before.dropped <= after.dropped && |before.events| <= |after.events| &&
    forall i :: 0 <= i < |before.events| && before.events[i].sent ==> KeepsEvent(before.events[i], after.events[i])
  }

  predicate KeepsEvent(before: EventState, after: EventState) { after.sent && after.fields == before.fields }

  lemma StepKeeps(w: World, op: Op)
    requires Possible(w, op)
    ensures Keeps(w, Apply(w, op).0)
  {
  }

  lemma KeepsOn(a: World, b: World, c: World)
    requires Keeps(a, b) && Keeps(b, c)
    ensures Keeps(a, c)
  {
    forall i | 0 <= i < |a.events| && a.events[i].sent ensures KeepsEvent(a.events[i], c.events[i]) {
      assert KeepsEvent(a.events[i], b.events[i]);
    }
  }

  /** Once an event has been sent it keeps its fields, and nothing that was handed over
      changes: in every run. */
  lemma {:induction false} SentStays(w: World, ops: seq<Op>)
    requires Run(w, ops).Some?
    ensures Keeps(w, Run(w, ops).value)
    decreases |ops|
  {
    if ops != [] {
      var front := ops[..|ops| - 1];
      SentStays(w, front);
      StepKeeps(Run(w, front).value, ops[|ops| - 1]);
      KeepsOn(w, Run(w, front).value, Run(w, ops).value);
    }
  }

  /** The checks of a send, in their order: fields at all; for a sender to Honeycomb, or
      its stand-in, a host and then a key; and a dataset. An event that passes them is
      marked, and handed over as it is; one that fails changes nothing. */
  lemma SendChecks(w: World, e: nat)
    requires e < |w.events|
    ensures var ev := w.events[e];
            var named := w.sender == Honeycomb || w.sender == Mock;
            var (w', r) := Apply(w, SendPresampled(e));
            (r == Failed(EmptyEvent) <==> ev.fields == map[]) &&
            (r == Failed(NoHost) <==> ev.fields != map[] && named && ev.to.apiHost == "") &&
            (r == Failed(NoKey) <==> ev.fields != map[] && named && ev.to.apiHost != "" && ev.to.writeKey == "") &&
            (r == Failed(NoDataset) <==>
               ev.fields != map[] && (named ==> ev.to.apiHost != "" && ev.to.writeKey != "") && ev.to.dataset == "") &&
            (r == Done <==>
               ev.fields != map[] && (named ==> ev.to.apiHost != "" && ev.to.writeKey != "") && ev.to.dataset != "") &&
            (if r == Done then
               w' == w.(events := w.events[e := ev.(sent := true)], handed := w.handed + [Handover(ev.fields, ev.to)])
             else w' == w)
  {
    assert |w.events[e].fields| == 0 <==> w.events[e].fields == map[];
  }

  /** Sampling drops an event if and only if its rate is above one and the draw is not
      zero; its response says so. Otherwise it is sent like any other. */
  lemma SamplingDropsIff(w: World, e: nat, roll: nat)
    requires Possible(w, Send(e, roll))
    ensures var to := w.events[e].to;
            Apply(w, Send(e, roll)) ==
            if to.sampleRate > 1 && roll != 0 then
              (w.(dropped := w.dropped + [Response(Some(SampledOut), 0, [], to.metadata)]), Done)
            else Apply(w, SendPresampled(e))
  {
  }

  /** An event can be handed over twice, and then with the same fields. */
  lemma SentTwice(w: World, e: nat, ops: seq<Op>)
    requires e < |w.events| && w.events[e].sent && Run(w, ops).Some?
    ensures var w' := Run(w, ops).value;
            e < |w'.events| &&
            var (w'', r) := Apply(w', SendPresampled(e));
            r == Done ==> w''.handed == w'.handed + [Handover(w.events[e].fields, w'.events[e].to)]
  {
    SentStays(w, ops);
  }

  /** An event that sampling drops does not count as sent: it can still be changed. */
  lemma SampledOutStaysOpen(w: World, e: nat, roll: nat, k: string, v: Value)
    requires Possible(w, Send(e, roll)) && Drops(w.events[e].to.sampleRate, roll) && !w.events[e].sent
    ensures var (w', r) := Apply(w, Send(e, roll));
            r == Done && !w'.events[e].sent && w'.handed == w.handed &&
            Apply(w', AddField(OnEvent(e), k, v)).0.events[e].fields == w.events[e].fields[k := v]
  {
    assert w.events[e].fields + map[k := v] == w.events[e].fields[k := v];
  }

  predicate KeepsFieldsOf(before: World, after: World, e: nat)
    requires e < |before.events|
  {
    e < |after.events| && after.events[e].fields == before.events[e].fields
  }

  /** No sequence of operations changes the event's fields any more. */
  ghost predicate ClosedForGood(w: World, e: nat)
    requires e < |w.events|
  {
    forall ops :: Run(w, ops).Some? ==> KeepsFieldsOf(w, Run(w, ops).value, e)
  }

  /** After a send without error the event is closed to all later operations if and only
      if sampling did not drop it, or it had been sent before. */
  lemma ClosedAfterSendIff(w: World, e: nat, roll: nat)
    requires Possible(w, Send(e, roll)) && Apply(w, Send(e, roll)).1 == Done
    ensures ClosedForGood(Apply(w, Send(e, roll)).0, e) <==>
            !Drops(w.events[e].to.sampleRate, roll) || w.events[e].sent
  {
    var w' := Apply(w, Send(e, roll)).0;
    if !Drops(w.events[e].to.sampleRate, roll) || w.events[e].sent {
      forall ops | Run(w', ops).Some? ensures KeepsFieldsOf(w', Run(w', ops).value, e) {
        SentStays(w', ops);
        assert KeepsEvent(w'.events[e], Run(w', ops).value.events[e]);
      }
    } else {
      var fields := w'.events[e].fields;
      var v := if "" in fields then fields[""] + 1 else 0;
      var op := AddField(OnEvent(e), "", v);
      SampledOutStaysOpen(w, e, roll, "", v);
      OneStep(w', op);
      assert Lookup(fields["" := v], "") != Lookup(fields, "");
      assert !KeepsFieldsOf(w', Run(w', [op]).value, e);
    }
  }

  lemma OneStep(w: World, op: Op)
    requires Possible(w, op)
    ensures Run(w, [op]) == Some(Apply(w, op).0)
  {
    assert [op][..0] == [];
  }

  // ---- which sends are answered for ----

  function HandedMetadata(hs: seq<Handover>): seq<int>
  {
    seq(|hs|, i requires 0 <= i < |hs| => hs[i].to.metadata)
  }

  predicate IsSend(op: Op) { op.Send? || op.SendPresampled? }

  /** The metadata of the events whose sending returned no error, call by call. */
  function NilSends(w: World, ops: seq<Op>): seq<int>
    requires Run(w, ops).Some?
    decreases |ops|
  {
    if ops == [] then []
    else
      var front, op := ops[..|ops| - 1], ops[|ops| - 1];
      var before := Run(w, front).value;
      NilSends(w, front) + (if IsSend(op) && Apply(before, op).1 == Done then [before.events[op.e].to.metadata] else [])
  }

  lemma HandedMore(hs: seq<Handover>, h: Handover)
    ensures multiset(HandedMetadata(hs + [h])) == multiset(HandedMetadata(hs)) + multiset{h.to.metadata}
  {
    assert HandedMetadata(hs + [h]) == HandedMetadata(hs) + [h.to.metadata];
  }

  /** In every run: each send without error either hands its event over or offers a
      response for it, and not both; a send with an error does neither. */
  lemma {:induction false} SendsAccountedFor(sender: Sender, to: Destination, ops: seq<Op>)
    requires Run(Start(sender, to), ops).Some?
    ensures var w := Run(Start(sender, to), ops).value;
            multiset(NilSends(Start(sender, to), ops)) == AccountedFor(w)
    decreases |ops|
  {
    if ops != [] {
      var w := Run(Start(sender, to), ops[..|ops| - 1]).value;
      SendsAccountedFor(sender, to, ops[..|ops| - 1]);
      SendStep(w, ops[|ops| - 1]);
    }
  }

  /** The metadata that is accounted for. */
  function AccountedFor(w: World): multiset<int>
  {
    multiset(HandedMetadata(w.handed)) + multiset(Handed(w.dropped))
  }

  lemma PresampledStep(w: World, e: nat)
    requires e < |w.events|
    ensures var (w', r) := ApplySendPresampled(w, e);
            AccountedFor(w') ==
            AccountedFor(w) + (if r == Done then multiset{w.events[e].to.metadata} else multiset{})
  {
    HandedMore(w.handed, Handover(w.events[e].fields, w.events[e].to));
  }

  lemma DroppedStep(w: World, e: nat, roll: nat)
    requires e < |w.events| && Drops(w.events[e].to.sampleRate, roll)
    ensures AccountedFor(ApplySend(w, e, roll).0) == AccountedFor(w) + multiset{w.events[e].to.metadata}
  {
    var r := ErrorResponse(SampledOut, w.events[e].to.metadata);
    HandedConcat(w.dropped, [r]);
    assert Handed([r]) == [r.metadata];
  }

  lemma SendStep(w: World, op: Op)
    requires Possible(w, op)
    ensures var (w', r) := Apply(w, op);
            AccountedFor(w') == AccountedFor(w) +
            (if IsSend(op) && r == Done then multiset{w.events[op.e].to.metadata} else multiset{})
  {
    if IsSend(op) {
      if op.Send? && Drops(w.events[op.e].to.sampleRate, op.roll) {
        DroppedStep(w, op.e, op.roll);
      } else {
        PresampledStep(w, op.e);
      }
    }
  }
}
