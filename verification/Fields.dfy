/** The objects behind events and builders: maps that are shared by reference, and the
    methods that update them in place. */
module Fields {
  import opened Bytes
  import opened Types
  import opened FieldModel

  /** A map as Go has it: whoever holds the reference sees every change. */
  class FieldMap {
    var m: Contents
    ghost const owner: FieldHolder?

    constructor (m: Contents, ghost owner: FieldHolder?)
      ensures this.m == m && this.owner == owner
    {
      this.m, this.owner := m, owner;
    }
  }

  /** Copies all entries of one map into another, which may be the same one. */
  method Copy(dst: FieldMap, src: FieldMap)
    modifies dst`m
    ensures dst.m == old(dst.m) + old(src.m)
  {
    var todo := src.m.Keys;
    while todo != {}
      invariant todo <= src.m.Keys && src.m == old(src.m)
      invariant dst.m == old(dst.m) + (old(src.m) - todo)
    {
      var k :| k in todo;
      dst.m := dst.m[k := src.m[k]];
      todo := todo - {k};
    }
    assert old(src.m) - {} == old(src.m);
  }

  /** A new map with the entries of both, the second one's on top. */
  method Merged(a: FieldMap, b: FieldMap, ghost owner: FieldHolder?) returns (merged: FieldMap)
    ensures fresh(merged) && merged.owner == owner && merged.m == a.m + b.m
  {
    merged := new FieldMap(map[], owner);
    Copy(merged, a);
    Copy(merged, b);
    assert map[] + a.m == a.m;
  }

  /** What events and builders have in common. */
  class FieldHolder {
    var data: FieldMap?
    ghost const place: Place

    ghost predicate Valid()
      reads this, data
    {
      data != null ==> data.owner == this
    }

    ghost function View(): Contents
      reads this, data
    {
      if data == null then map[] else data.m
    }

    constructor (ghost place: Place)
      ensures data == null && this.place == place
    {
      this.data, this.place := null, place;
    }

    method AddField(key: string, value: Value)
      requires Valid() && data != null
      modifies data
      ensures View() == old(View()) + map[key := value]
    {
      data.m := data.m[key := value];
    }

    /** Merges a map in, and never keeps the caller's map: with no map yet it takes a
        copy, a larger one goes with the old entries into a new map, and a smaller one
        is copied in place. */
    method AddFields(arg: FieldMap?)
      requires Valid()
      modifies this`data, data
      ensures Valid() && View() == old(View()) + old(if arg == null then map[] else arg.m)
      ensures arg != null ==> arg.m == old(arg.m)
      ensures data != old(data) ==> fresh(data)
      ensures data == old(data) <==>
              if arg == null then true else old(data) != null && |old(arg.m)| <= |old(data.m)|
      ensures old(data) != null && data != old(data) ==> old(data).m == old(data.m)
    {
      if arg == null {
        return;
      }
      if data == null {
        data := new FieldMap(arg.m, this);
        return;
      }
      if |arg.m| > |data.m| {
        data := Merged(data, arg, this);
      } else {
        Copy(data, arg);
      }
    }

    method AddFunc(items: seq<Item>)
      requires Valid() && data != null
      modifies data
      ensures View() == old(View()) + AddAll(map[], items)
    {
      for i := 0 to |items|
        invariant View() == old(View()) + AddAll(map[], items[..i])
      {
        assert items[..i + 1][..i] == items[..i];
        AddField(items[i].key, items[i].value);
      }
      assert items[..|items|] == items;
    }

    /** Adds what reflection finds; a map whose keys cannot be made strings fails at
        its first entry. */
    method Add(addable: Addable) returns (r: Result)
      requires Valid() && data != null
      modifies data
      ensures View() == old(View()) + Found(addable).0 && r == Found(addable).1
    {
      match addable
      case Struct(items) =>
        AddFunc(items);
        r := Done;
      case MapOf(keysOk, items) =>
        if !keysOk && items != [] {
          r := Failed(BadKey);
        } else {
          AddFunc(items);
          r := Done;
        }
      case Unaddable =>
        r := Failed(NotAddable);
    }
  }

  /** An event in the transmission's hands: its data is the event's own map. */
  datatype TxEvent = TxEvent(data: FieldMap, to: Destination)

  class Client {
    const sender: Sender
    var handed: seq<TxEvent>
    var dropped: seq<Response>

    constructor (sender: Sender)
      ensures this.sender == sender && handed == [] && dropped == []
    {
      this.sender, handed, dropped := sender, [], [];
    }
  }

  class Event {
    const fields: FieldHolder
    var to: Destination
    var sent: bool

    constructor (fields: FieldHolder, to: Destination)
      ensures this.fields == fields && this.to == to && !sent
    {
      this.fields, this.to, this.sent := fields, to, false;
    }

    /** Each kind of addition goes through to the fields, and none has an effect once
        the event has been sent. */
    method AddField(key: string, value: Value)
      requires fields.Valid() && fields.data != null
      modifies fields`data, fields.data
      ensures fields.Valid() && fields.data != null && (fields.data != old(fields.data) ==> fresh(fields.data))
      ensures sent ==> fields.data == old(fields.data)
      ensures fields.data.m == old(fields.data.m) + (if sent then map[] else map[key := value])
    {
      if sent {
        return;
      }
      fields.AddField(key, value);
    }

    method AddFields(arg: FieldMap)
      requires fields.Valid() && fields.data != null
      modifies fields`data, fields.data
      ensures fields.Valid() && fields.data != null && (fields.data != old(fields.data) ==> fresh(fields.data))
      ensures sent ==> fields.data == old(fields.data)
      ensures fields.data.m == old(fields.data.m) + (if sent then map[] else old(arg.m))
    {
      if sent {
        return;
      }
      fields.AddFields(arg);
    }

    method Add(addable: Addable) returns (r: Result)
      requires fields.Valid() && fields.data != null
      modifies fields`data, fields.data
      ensures fields.Valid() && fields.data != null && (fields.data != old(fields.data) ==> fresh(fields.data))
      ensures sent ==> fields.data == old(fields.data)
      ensures fields.data.m == old(fields.data.m) + (if sent then map[] else Found(addable).0)
      ensures r == if sent then Done else Found(addable).1
    {
      if sent {
        return Done;
      }
      r := fields.Add(addable);
    }

    method AddFunc(items: seq<Item>)
      requires fields.Valid() && fields.data != null
      modifies fields`data, fields.data
      ensures fields.Valid() && fields.data != null && (fields.data != old(fields.data) ==> fresh(fields.data))
      ensures sent ==> fields.data == old(fields.data)
      ensures fields.data.m == old(fields.data.m) + (if sent then map[] else AddAll(map[], items))
    {
      if sent {
        return;
      }
      fields.AddFunc(items);
    }

    /** Hands the event over, after checking that it can be sent. Nothing is copied: the
        transmission gets the event's own map. */
    method SendPresampled(client: Client) returns (r: Result)
      requires fields.Valid() && fields.data != null
      modifies this`sent, client`handed
      ensures var refused := Refusal(client.sender, EventState(fields.data.m, old(sent), to));
              if refused.Some? then
                r == Failed(refused.value) && sent == old(sent) && client.handed == old(client.handed)
              else
                r == Done && sent && client.handed == old(client.handed) + [TxEvent(fields.data, to)]
    {
      if |fields.data.m| == 0 {
        return Failed(EmptyEvent);
      }
      if client.sender == Honeycomb || client.sender == Mock {
        if to.apiHost == "" {
          return Failed(NoHost);
        }
        if to.writeKey == "" {
          return Failed(NoKey);
        }
      }
      if to.dataset == "" {
        return Failed(NoDataset);
      }
      sent := true;
      client.handed := client.handed + [TxEvent(fields.data, to)];
      r := Done;
    }

    /** Sends the event unless sampling drops it; a dropped event is not marked as sent. */
    method Send(client: Client, roll: nat) returns (r: Result)
      requires fields.Valid() && fields.data != null && (to.sampleRate > 1 ==> roll < to.sampleRate)
      modifies this`sent, client`handed, client`dropped
      ensures if Drops(to.sampleRate, roll) then
                r == Done && sent == old(sent) && client.handed == old(client.handed) &&
                client.dropped == old(client.dropped) + [ErrorResponse(SampledOut, to.metadata)]
              else
                client.dropped == old(client.dropped) &&
                var refused := Refusal(client.sender, EventState(fields.data.m, old(sent), to));
                if refused.Some? then
                  r == Failed(refused.value) && sent == old(sent) && client.handed == old(client.handed)
                else
                  r == Done && sent && client.handed == old(client.handed) + [TxEvent(fields.data, to)]
    {
      if to.sampleRate > 1 && roll != 0 {
        client.dropped := client.dropped + [ErrorResponse(SampledOut, to.metadata)];
        return Done;
      }
      r := SendPresampled(client);
    }
  }

  /** A list that is appended to in place. */
  class DynamicFields {
    var list: seq<DynamicField>
    ghost const id: nat

    constructor (list: seq<DynamicField>, ghost id: nat)
      ensures this.list == list && this.id == id
    {
      this.list, this.id := list, id;
    }
  }

  class Builder {
    const fields: FieldHolder
    const dynamic: DynamicFields
    var to: Destination

    constructor (fields: FieldHolder, dynamic: DynamicFields, to: Destination)
      ensures this.fields == fields && this.dynamic == dynamic && this.to == to
    {
      this.fields, this.dynamic, this.to := fields, dynamic, to;
    }

    method AddDynamicField(field: DynamicField)
      modifies dynamic
      ensures dynamic.list == old(dynamic.list) + [field]
    {
      dynamic.list := dynamic.list + [field];
    }

    /** A new event with a map of its own: the builder's fields, then its functions'
        values in their order. */
    method NewEventSized(size: nat, now: int, ghost id: nat) returns (e: Event)
      requires fields.Valid() && fields.data != null
      ensures fresh(e) && fresh(e.fields) && fresh(e.fields.data) && e.fields.Valid()
      ensures e.fields.data != null && e.fields.place == OnEvent(id)
      ensures EventState(e.fields.data.m, e.sent, e.to) == NewEventOf(BuilderState(fields.data.m, dynamic.list, to), now)
    {
      var holder := new FieldHolder(OnEvent(id));
      holder.data := new FieldMap(map[], holder);
      Copy(holder.data, fields.data);
      assert holder.data.m == fields.data.m;
      for i := 0 to |dynamic.list|
        invariant fresh(holder) && fresh(holder.data) && holder.data != null && holder.data.owner == holder
        invariant holder.data.m == Overlay(fields.data.m, dynamic.list[..i], now)
      {
        assert dynamic.list[..i + 1][..i] == dynamic.list[..i];
        holder.data.m := holder.data.m[dynamic.list[i].name := dynamic.list[i].fn(now)];
      }
      assert dynamic.list[..|dynamic.list|] == dynamic.list;
      e := new Event(holder, to.(metadata := 0));
    }

    /** A new builder with a map and a list of its own. */
    method Clone(ghost id: nat) returns (b: Builder)
      requires fields.Valid() && fields.data != null
      ensures fresh(b) && fresh(b.fields) && fresh(b.fields.data) && fresh(b.dynamic) && b.fields.Valid()
      ensures b.fields.data != null && b.fields.place == OnBuilder(id) && b.dynamic.id == id
      ensures b.fields.data.m == fields.data.m && b.dynamic.list == dynamic.list && b.to == to
    {
      var holder := new FieldHolder(OnBuilder(id));
      holder.data := new FieldMap(map[], holder);
      Copy(holder.data, fields.data);
      assert holder.data.m == fields.data.m;
      var list := new DynamicFields(dynamic.list, id);
      b := new Builder(holder, list, to);
    }
  }

  /** A client with its events and builders, and the maps that its user has made. The
      ghost world says what all of them would be if nothing were shared. */
  class Library {
    const client: Client
    var events: seq<Event>
    var builders: seq<Builder>
    var callers: seq<FieldMap>
    ghost var world: World
    ghost var senders: seq<nat>
    ghost var Repr: set<object>

    ghost predicate HolderOk(h: FieldHolder)
      reads this, Repr
    {
      h in Repr && h.data != null && h.data in Repr && h.data.owner == h
    }

    ghost predicate EventOk(i: nat)
      requires i < |events| == |world.events|
      reads this, Repr
    {
      var e := events[i];
      e in Repr && e.fields.place == OnEvent(i) && HolderOk(e.fields) &&
      world.events[i] == EventState(e.fields.data.m, e.sent, e.to)
    }

    ghost predicate BuilderOk(i: nat)
      requires i < |builders| == |world.builders|
      reads this, Repr
    {
      var b := builders[i];
      b in Repr && b.fields.place == OnBuilder(i) && HolderOk(b.fields) &&
      b.dynamic in Repr && b.dynamic.id == i &&
      world.builders[i] == BuilderState(b.fields.data.m, b.dynamic.list, b.to)
    }

    ghost predicate CallerOk(i: nat)
      requires i < |callers| == |world.callers|
      reads this, Repr
    {
      callers[i] in Repr && callers[i].owner == null && world.callers[i] == callers[i].m
    }

    /** An event that was handed over is sent, and shares its map. */
    ghost predicate HandoverOk(i: nat)
      requires client in Repr && i < |client.handed| == |world.handed| == |senders|
      reads this, Repr
    {
      var tx := client.handed[i];
      senders[i] < |events| && events[senders[i]] in Repr && events[senders[i]].fields in Repr &&
      events[senders[i]].sent && tx.data == events[senders[i]].fields.data && tx.data in Repr &&
      world.handed[i] == Handover(tx.data.m, tx.to)
    }

    ghost predicate Valid()
      reads this, Repr
    {
      this in Repr && client in Repr &&
      |events| == |world.events| && |builders| == |world.builders| && |callers| == |world.callers| &&
      |client.handed| == |world.handed| == |senders| &&
      client.sender == world.sender && client.dropped == world.dropped &&
      (forall i :: 0 <= i < |events| ==> EventOk(i)) &&
      (forall i :: 0 <= i < |builders| ==> BuilderOk(i)) &&
      (forall i :: 0 <= i < |callers| ==> CallerOk(i)) &&
      (forall i, j :: 0 <= i < j < |callers| ==> callers[i] != callers[j]) &&
      (forall i :: 0 <= i < |client.handed| ==> HandoverOk(i))
    }

    constructor (sender: Sender, to: Destination)
      ensures Valid() && fresh(Repr) && world == Start(sender, to)
    {
      client := new Client(sender);
      var holder := new FieldHolder(OnBuilder(0));
      var data := new FieldMap(map[], holder);
      holder.data := data;
      var list := new DynamicFields([], 0);
      var b := new Builder(holder, list, to);
      events, builders, callers, senders := [], [b], [], [];
      world := Start(sender, to);
      Repr := {client, holder, data, list, b};
      new;
      Repr := Repr + {this};
    }

    method Resolve(from: Source) returns (arg: FieldMap)
      requires Valid() && Shown(world, from)
      ensures arg.m == SourceOf(world, from)
    {
      match from
      case CallerMap(i) =>
        assert CallerOk(i);
        arg := callers[i];
      case ShownBy(i) =>
        assert EventOk(i);
        arg := events[i].fields.data;
    }

    /** The addition itself, on the event's own objects. */
    method AddTo(e: Event, op: Op) returns (r: Result)
      requires Valid() && Adds(op) && Possible(world, op) && HolderOk(e.fields)
      modifies e.fields`data, e.fields.data
      ensures e.fields.Valid() && e.fields.data != null
      ensures e.fields.data != old(e.fields.data) ==> fresh(e.fields.data)
      ensures e.sent ==> e.fields.data == old(e.fields.data) && r == Done
      ensures !e.sent ==> r == Addition(world, op).1
      ensures e.fields.data.m == old(e.fields.data.m) + (if e.sent then map[] else Addition(world, op).0)
    {
      r := Done;
      match op
      case AddField(_, key, value) => e.AddField(key, value);
      case AddFields(_, from) =>
        var arg := Resolve(from);
        e.AddFields(arg);
      case Add(_, addable) => r := e.Add(addable);
      case AddFunc(_, items) => e.AddFunc(items);
    }

    method AddToBuilder(fields: FieldHolder, op: Op) returns (r: Result)
      requires Valid() && Adds(op) && Possible(world, op) && HolderOk(fields)
      modifies fields`data, fields.data
      ensures fields.Valid() && fields.data != null && (fields.data != old(fields.data) ==> fresh(fields.data))
      ensures r == Addition(world, op).1 && fields.data.m == old(fields.data.m) + Addition(world, op).0
    {
      r := Done;
      match op
      case AddField(_, key, value) => fields.AddField(key, value);
      case AddFields(_, from) =>
        var arg := Resolve(from);
        fields.AddFields(arg);
      case Add(_, addable) => r := fields.Add(addable);
      case AddFunc(_, items) => fields.AddFunc(items);
    }

    method AddOnEvent(op: Op) returns (r: Result)
      requires Valid() && Adds(op) && Possible(world, op) && op.at.OnEvent?
      modifies Repr
      ensures Valid() && fresh(Repr - old(Repr)) && (world, r) == ApplyAdd(old(world), op)
      ensures client.handed == old(client.handed)
    {
      var e := events[op.at.i];
      assert EventOk(op.at.i);
      r := AddTo(e, op);
      world := ApplyAdd(world, op).0;
      Repr := Repr + {e.fields.data};
      forall j | 0 <= j < |events| ensures EventOk(j) {
        assert old(EventOk(j));
      }
      forall j | 0 <= j < |builders| ensures BuilderOk(j) {
        assert old(BuilderOk(j));
      }
      forall j | 0 <= j < |callers| ensures CallerOk(j) {
        assert old(CallerOk(j));
      }
      forall j | 0 <= j < |client.handed| ensures HandoverOk(j) {
        assert old(HandoverOk(j)) && old(EventOk(senders[j]));
      }
    }

    method AddOnBuilder(op: Op) returns (r: Result)
      requires Valid() && Adds(op) && Possible(world, op) && op.at.OnBuilder?
      modifies Repr
      ensures Valid() && fresh(Repr - old(Repr)) && (world, r) == ApplyAdd(old(world), op)
      ensures client.handed == old(client.handed)
    {
      var b := builders[op.at.i];
      assert BuilderOk(op.at.i);
      r := AddToBuilder(b.fields, op);
      world := ApplyAdd(world, op).0;
      Repr := Repr + {b.fields.data};
      forall j | 0 <= j < |events| ensures EventOk(j) {
        assert old(EventOk(j));
      }
      forall j | 0 <= j < |builders| ensures BuilderOk(j) {
        assert old(BuilderOk(j));
      }
      forall j | 0 <= j < |callers| ensures CallerOk(j) {
        assert old(CallerOk(j));
      }
      forall j | 0 <= j < |client.handed| ensures HandoverOk(j) {
        assert old(HandoverOk(j)) && old(EventOk(senders[j]));
      }
    }

    method ChangeCallers(op: Op)
      requires Valid() && Possible(world, op) && (op.MakeMap? || op.ChangeMap?)
      modifies Repr
      ensures Valid() && fresh(Repr - old(Repr)) && world == Apply(old(world), op).0
      ensures client.handed == old(client.handed)
    {
      match op {
        case MakeMap(contents) =>
          var data := new FieldMap(contents, null);
          callers := callers + [data];
          Repr := Repr + {data};
        case ChangeMap(i, key, value) =>
          assert CallerOk(i);
          callers[i].m := callers[i].m[key := value];
      }
      world := Apply(world, op).0;
      forall j | 0 <= j < |events| ensures EventOk(j) {
        assert old(EventOk(j));
      }
      forall j | 0 <= j < |builders| ensures BuilderOk(j) {
        assert old(BuilderOk(j));
      }
      forall j | 0 <= j < |callers| ensures CallerOk(j) {
        assert j < old(|callers|) ==> old(CallerOk(j));
      }
      forall j | 0 <= j < |client.handed| ensures HandoverOk(j) {
        assert old(HandoverOk(j)) && old(EventOk(senders[j]));
      }
    }

    method NewEvent(b: nat, size: nat, now: int)
      requires Valid() && b < |builders|
      modifies Repr
      ensures Valid() && fresh(Repr - old(Repr)) && world == Apply(old(world), NewEventSized(b, size, now)).0
      ensures client.handed == old(client.handed)
    {
      assert BuilderOk(b);
      var e := builders[b].NewEventSized(size, now, |events|);
      events := events + [e];
      world := Apply(world, NewEventSized(b, size, now)).0;
      Repr := Repr + {e, e.fields, e.fields.data};
      forall j | 0 <= j < |events| ensures EventOk(j) {
        assert j < old(|events|) ==> old(EventOk(j));
      }
      forall j | 0 <= j < |builders| ensures BuilderOk(j) {
        assert old(BuilderOk(j));
      }
      forall j | 0 <= j < |callers| ensures CallerOk(j) {
        assert old(CallerOk(j));
      }
      forall j | 0 <= j < |client.handed| ensures HandoverOk(j) {
        assert old(HandoverOk(j));
      }
    }

    method CloneBuilder(b: nat)
      requires Valid() && b < |builders|
      modifies Repr
      ensures Valid() && fresh(Repr - old(Repr)) && world == Apply(old(world), Clone(b)).0
      ensures client.handed == old(client.handed)
    {
      assert BuilderOk(b);
      var c := builders[b].Clone(|builders|);
      builders := builders + [c];
      world := Apply(world, Clone(b)).0;
      Repr := Repr + {c, c.fields, c.fields.data, c.dynamic};
      forall j | 0 <= j < |events| ensures EventOk(j) {
        assert old(EventOk(j));
      }
      forall j | 0 <= j < |builders| ensures BuilderOk(j) {
        assert j < old(|builders|) ==> old(BuilderOk(j));
      }
      forall j | 0 <= j < |callers| ensures CallerOk(j) {
        assert old(CallerOk(j));
      }
      forall j | 0 <= j < |client.handed| ensures HandoverOk(j) {
        assert old(HandoverOk(j));
      }
    }

    method AddDynamic(b: nat, field: DynamicField)
      requires Valid() && b < |builders|
      modifies Repr
      ensures Valid() && fresh(Repr - old(Repr)) && world == Apply(old(world), AddDynamicField(b, field)).0
      ensures client.handed == old(client.handed)
    {
      assert BuilderOk(b);
      builders[b].AddDynamicField(field);
      world := Apply(world, AddDynamicField(b, field)).0;
      forall j | 0 <= j < |events| ensures EventOk(j) {
        assert old(EventOk(j));
      }
      forall j | 0 <= j < |builders| ensures BuilderOk(j) {
        assert old(BuilderOk(j));
      }
      forall j | 0 <= j < |callers| ensures CallerOk(j) {
        assert old(CallerOk(j));
      }
      forall j | 0 <= j < |client.handed| ensures HandoverOk(j) {
        assert old(HandoverOk(j));
      }
    }

    /** The public fields of events and builders can be assigned at any time. */
    method Readdress(at: Place, to: Destination)
      requires Valid() && Exists(world, at)
      modifies Repr
      ensures Valid() && fresh(Repr - old(Repr)) && world == ApplyAddress(old(world), at, to)
      ensures client.handed == old(client.handed)
    {
      match at {
        case OnEvent(i) =>
          assert EventOk(i);
          events[i].to := to;
        case OnBuilder(i) =>
          assert BuilderOk(i);
          builders[i].to := to;
      }
      world := ApplyAddress(world, at, to);
      forall j | 0 <= j < |events| ensures EventOk(j) {
        assert old(EventOk(j));
      }
      forall j | 0 <= j < |builders| ensures BuilderOk(j) {
        assert old(BuilderOk(j));
      }
      forall j | 0 <= j < |callers| ensures CallerOk(j) {
        assert old(CallerOk(j));
      }
      forall j | 0 <= j < |client.handed| ensures HandoverOk(j) {
        assert old(HandoverOk(j));
      }
    }

    /** The sending itself, on the event and the client. */
    method SendOff(e: Event, op: Op) returns (r: Result)
      requires Valid() && IsSend(op) && Possible(world, op) && e == events[op.e] && EventOk(op.e)
      modifies e`sent, client`handed, client`dropped
      ensures r == Apply(world, op).1 && client.dropped == Apply(world, op).0.dropped
      ensures Apply(world, op).0 == world.(
                events := world.events[op.e := world.events[op.e].(sent := e.sent)],
                handed := Apply(world, op).0.handed, dropped := client.dropped)
      ensures if client.handed == old(client.handed) then
                Apply(world, op).0.handed == world.handed && e.sent == old(e.sent)
              else
                client.handed == old(client.handed) + [TxEvent(e.fields.data, e.to)] && e.sent &&
                Apply(world, op).0.handed == world.handed + [Handover(e.fields.data.m, e.to)]
    {
      if op.Send? {
        r := e.Send(client, op.roll);
      } else {
        r := e.SendPresampled(client);
      }
    }

    /** Only the mark of event k has changed, and perhaps it was handed over. */
    twostate predicate OnlySent(k: nat)
      requires old(Valid()) && k < |old(events)|
      reads this, Repr
    {
      Repr == old(Repr) && events == old(events) && builders == old(builders) && callers == old(callers) &&
      (forall o :: o in Repr && o != this && o != events[k] && o != client ==> unchanged(o)) &&
      events[k] in Repr && HolderOk(events[k].fields) &&
      events[k].to == old(events[k].to) && (old(events[k].sent) ==> events[k].sent) &&
      world == old(world).(
        events := old(world).events[k := old(world).events[k].(sent := events[k].sent)],
        handed := world.handed, dropped := client.dropped) &&
      if client.handed == old(client.handed) then world.handed == old(world).handed && senders == old(senders)
      else
        events[k].sent && senders == old(senders) + [k] &&
        client.handed == old(client.handed) + [TxEvent(events[k].fields.data, events[k].to)] &&
        world.handed == old(world).handed + [Handover(events[k].fields.data.m, events[k].to)]
    }

    twostate lemma SentFrame(k: nat)
      requires old(Valid()) && k < |old(events)| && OnlySent(k)
      ensures Valid()
    {
      assert old(EventOk(k));
      forall j | 0 <= j < |events| ensures EventOk(j) {
        assert old(EventOk(j));
      }
      forall j | 0 <= j < |builders| ensures BuilderOk(j) {
        assert old(BuilderOk(j));
      }
      forall j | 0 <= j < |callers| ensures CallerOk(j) {
        assert old(CallerOk(j));
      }
      forall j | 0 <= j < |client.handed| ensures HandoverOk(j) {
        assert j < |old(client.handed)| ==> old(HandoverOk(j));
      }
    }

    method Sending(op: Op) returns (r: Result)
      requires Valid() && IsSend(op) && Possible(world, op)
      modifies Repr
      ensures Valid() && fresh(Repr - old(Repr)) && (world, r) == Apply(old(world), op)
      ensures old(client.handed) <= client.handed
    {
      assert EventOk(op.e);
      r := SendOff(events[op.e], op);
      if client.handed != old(client.handed) {
        senders := senders + [op.e];
      }
      world := Apply(world, op).0;
      SentFrame(op.e);
    }

    /** Every operation does to the shared objects what it would do to values of their
        own. */
    method Perform(op: Op) returns (r: Result)
      requires Valid() && Possible(world, op)
      modifies Repr
      ensures Valid() && fresh(Repr - old(Repr)) && (world, r) == Apply(old(world), op)
      ensures old(client.handed) <= client.handed
    {
      r := Done;
      if Adds(op) {
        if op.at.OnEvent? {
          r := AddOnEvent(op);
        } else {
          r := AddOnBuilder(op);
        }
      } else {
        match op
        case MakeMap(_) => ChangeCallers(op);
        case ChangeMap(_, _, _) => ChangeCallers(op);
        case AddDynamicField(b, field) => AddDynamic(b, field);
        case NewEventSized(b, size, now) => NewEvent(b, size, now);
        case Clone(b) => CloneBuilder(b);
        case Address(at, to) => Readdress(at, to);
        case Send(_, _) => r := Sending(op);
        case SendPresampled(_) => r := Sending(op);
      }
    }

    /** Any sequence of operations: the objects end up as the values would, and no map
        that was in the transmission's hands has changed. */
    method PerformAll(ops: seq<Op>)
      requires Valid() && Run(world, ops).Some?
      modifies Repr
      ensures Valid() && fresh(Repr - old(Repr)) && Some(world) == Run(old(world), ops)
      ensures old(client.handed) <= client.handed
      ensures forall i :: 0 <= i < |old(client.handed)| ==>
                old(client.handed)[i].data.m == old(client.handed[i].data.m)
    {
      for i := 0 to |ops|
        invariant Valid() && fresh(Repr - old(Repr)) && Some(world) == Run(old(world), ops[..i])
        invariant old(client.handed) <= client.handed
      {
        PrefixRuns(old(world), ops, i + 1);
        assert ops[..i + 1][..i] == ops[..i];
        var r := Perform(ops[i]);
      }
      assert ops[..|ops|] == ops;
      SentStays(old(world), ops);
      forall i | 0 <= i < |old(client.handed)|
        ensures old(client.handed)[i].data.m == old(client.handed[i].data.m)
      {
        assert HandoverOk(i) && old(HandoverOk(i));
      }
    }
  }
}
