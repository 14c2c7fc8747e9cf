/**
 The single-slot identity memo of the exact BSE diagonal (`_DiagMemo`) and its use in
 `build_bse_exact_diagonal`.

 Objects live at addresses that are recycled after death.  A weak reference remembers which
 object it was made for, not only where that object was.
 */
module DiagonalMemo {
  import opened Wrappers

  /** An object on the heap: the how-manieth object ever created, and its immutable content. */
  datatype Object<T> = Object(serial: nat, content: T, weakrefable: bool)

  type Heap<T> = map<nat, Object<T>>

  datatype Ref = Ref(address: nat, serial: nat)

  /** ref(): the object's address while it lives. */
  function Deref<T>(heap: Heap<T>, ref: Ref): Option<nat> {
    if ref.address in heap && heap[ref.address].serial == ref.serial then Some(ref.address) else None
  }

  /** nk, sharding, complex_out and exchange_channel. */
  datatype Meta = Meta(nk: int, sharding: Option<nat>, complexOut: bool, channel: string)

  datatype Slot<V> = Empty | Loaded(meta: Meta, refs: seq<Ref>, diagonal: V)

  /** The value of a lookup: the stored diagonal if every reference still is its operand. */
  ghost function Lookup<T, V>(slot: Slot<V>, heap: Heap<T>, meta: Meta, operands: seq<nat>): Option<V> {
    if && slot.Loaded? && slot.meta == meta && |slot.refs| == |operands|
       && (forall i :: 0 <= i < |operands| ==> Deref(heap, slot.refs[i]) == Some(operands[i]))
    then Some(slot.diagonal) else None
  }

  ghost predicate AllLive<T>(heap: Heap<T>, operands: seq<nat>) {
    forall i :: 0 <= i < |operands| ==> operands[i] in heap
  }

  /** weakref.ref of every operand. */
  function Refs<T>(heap: Heap<T>, operands: seq<nat>): (refs: seq<Ref>)
    requires AllLive(heap, operands)
    ensures |refs| == |operands|
    ensures forall i :: 0 <= i < |refs| ==> refs[i] == Ref(operands[i], heap[operands[i]].serial)
  {
    seq(|operands|, i requires 0 <= i < |operands| => Ref(operands[i], heap[operands[i]].serial))
  }

  ghost predicate AllWeakrefable<T>(heap: Heap<T>, operands: seq<nat>)
    requires AllLive(heap, operands)
  {
    forall i :: 0 <= i < |operands| ==> heap[operands[i]].weakrefable
  }

  /** The slot after storing: empty if an operand takes no weak reference. */
  ghost function Stored<T, V>(heap: Heap<T>, meta: Meta, operands: seq<nat>, diagonal: V): Slot<V>
    requires AllLive(heap, operands)
  {
    if AllWeakrefable(heap, operands) then Loaded(meta, Refs(heap, operands), diagonal) else Empty
  }

  class DiagMemo<V> {
    var refs: Option<seq<Ref>>
    var stored: Option<V>
    var meta: Option<Meta>
    var hits: nat
    var misses: nat

    ghost predicate Valid()
      reads this
    {
      refs.Some? == stored.Some? == meta.Some?
    }

    ghost function State(): Slot<V>
      reads this
    {
      if refs.Some? && stored.Some? && meta.Some? then Loaded(meta.value, refs.value, stored.value) else Empty
    }

    constructor ()
      ensures Valid() && State() == Empty && hits == misses == 0
    {
      refs, stored, meta, hits, misses := None, None, None, 0, 0;
    }

    method Get<T>(heap: Heap<T>, key: Meta, operands: seq<nat>) returns (r: Option<V>)
      requires Valid()
      modifies this`hits, this`misses
      ensures Valid() && r == Lookup(State(), heap, key, operands)
      ensures if r.Some? then hits == old(hits) + 1 && misses == old(misses)
              else hits == old(hits) && misses == old(misses) + 1
    {
      if stored == None || refs == None || meta != Some(key) || |refs.value| != |operands| {
        misses := misses + 1;
        return None;
      }
      for i := 0 to |operands|
        invariant hits == old(hits) && misses == old(misses)
        invariant forall j :: 0 <= j < i ==> Deref(heap, refs.value[j]) == Some(operands[j])
      {
        if Deref(heap, refs.value[i]) != Some(operands[i]) {
          misses := misses + 1;
          return None;
        }
      }
      hits := hits + 1;
      return stored;
    }

    method Put<T>(heap: Heap<T>, key: Meta, operands: seq<nat>, diagonal: V)
      requires Valid() && AllLive(heap, operands)
      modifies this`refs, this`stored, this`meta
      ensures Valid() && State() == Stored(heap, key, operands, diagonal)
    {
      var made: seq<Ref> := [];
      for i := 0 to |operands|
        invariant made == Refs(heap, operands)[..i]
        invariant forall j :: 0 <= j < i ==> heap[operands[j]].weakrefable
      {
        if !heap[operands[i]].weakrefable {
          Clear();
          return;
        }
        made := made + [Ref(operands[i], heap[operands[i]].serial)];
      }
      refs, stored, meta := Some(made), Some(diagonal), Some(key);
    }

    method Clear()
      requires Valid()
      modifies this`refs, this`stored, this`meta
      ensures Valid() && State() == Empty
    {
      refs, stored, meta := None, None, None;
    }
  }

  // ---------------------------------------------------------------- building

  /** Operand positions may be empty (no screened term); then the memo is not consulted. */
  ghost predicate Given<T>(heap: Heap<T>, operands: seq<Option<nat>>) {
    forall i :: 0 <= i < |operands| && operands[i].Some? ==> operands[i].value in heap
  }

  function Contents<T>(heap: Heap<T>, operands: seq<Option<nat>>): (c: seq<Option<T>>)
    requires Given(heap, operands)
    ensures |c| == |operands|
  {
    seq(|operands|, i requires 0 <= i < |operands| =>
      if operands[i].Some? then Some(heap[operands[i].value].content) else None)
  }

  predicate Complete(operands: seq<Option<nat>>) {
    forall i :: 0 <= i < |operands| ==> operands[i].Some?
  }

  function Addresses(operands: seq<Option<nat>>): (a: seq<nat>)
    requires Complete(operands)
    ensures |a| == |operands| && forall i :: 0 <= i < |a| ==> a[i] == operands[i].value
  {
    seq(|operands|, i requires 0 <= i < |operands| => operands[i].value)
  }

  type Kernel<!T, !V> = (Meta, seq<Option<T>>) -> V

  /** What one build returns and leaves in the slot. */
  ghost function Built<T, V>(kernel: Kernel<T, V>, slot: Slot<V>, heap: Heap<T>, meta: Meta, operands: seq<Option<nat>>,
                             memo: bool): (V, Slot<V>)
    requires Given(heap, operands)
  {
    if !memo || !Complete(operands) then (kernel(meta, Contents(heap, operands)), slot)
    else
      var hit := Lookup(slot, heap, meta, Addresses(operands));
      if hit.Some? then (hit.value, slot)
      else
        var out := kernel(meta, Contents(heap, operands));
        (out, Stored(heap, meta, Addresses(operands), out))
  }

  method BuildExactDiagonal<T, V>(cache: DiagMemo<V>, kernel: Kernel<T, V>, heap: Heap<T>, meta: Meta,
                                  operands: seq<Option<nat>>, memo: bool) returns (out: V)
    requires cache.Valid() && Given(heap, operands)
    modifies cache
    ensures cache.Valid() && (out, cache.State()) == Built(kernel, old(cache.State()), heap, meta, operands, memo)
  {
    var useMemo := memo && Complete(operands);
    if useMemo {
      var hit := cache.Get(heap, meta, Addresses(operands));
      if hit.Some? {
        return hit.value;
      }
    }
    out := kernel(meta, Contents(heap, operands));
    if useMemo {
      cache.Put(heap, meta, Addresses(operands), out);
    }
  }

  // ---------------------------------------------------------------- every history

  datatype Event<T> =
    | Create(address: nat, content: T, weakrefable: bool)
    | Die(address: nat)
    | Build(meta: Meta, operands: seq<Option<nat>>, memo: bool)
    | Clear

  /** The process: its heap, every object ever created, and the memo's slot. */
  datatype Process<T, V> = Process(heap: Heap<T>, created: seq<T>, slot: Slot<V>)

  /** A new object takes a free address; a build is given live operands. */
  ghost predicate Possible<T, V>(p: Process<T, V>, e: Event<T>) {
    match e
    case Create(a, _, _) => a !in p.heap
    case Die(a) => a in p.heap
    case Build(_, operands, _) => Given(p.heap, operands)
    case Clear => true
  }

  ghost function Step<T, V>(kernel: Kernel<T, V>, p: Process<T, V>, e: Event<T>): Process<T, V>
    requires Possible(p, e)
  {
    match e
    case Create(a, content, weakrefable) =>
      p.(heap := p.heap[a := Object(|p.created|, content, weakrefable)], created := p.created + [content])
    case Die(a) => p.(heap := p.heap - {a})
    case Build(meta, operands, memo) => p.(slot := Built(kernel, p.slot, p.heap, meta, operands, memo).1)
    case Clear => p.(slot := Empty)
  }

  ghost predicate History<T, V>(kernel: Kernel<T, V>, p: Process<T, V>, events: seq<Event<T>>)
    decreases |events|
  {
    events == [] || (Possible(p, events[0]) && History(kernel, Step(kernel, p, events[0]), events[1..]))
  }

  ghost function After<T, V>(kernel: Kernel<T, V>, p: Process<T, V>, events: seq<Event<T>>): Process<T, V>
    requires History(kernel, p, events)
    decreases |events|
  {
    if events == [] then p else After(kernel, Step(kernel, p, events[0]), events[1..])
  }

  /** Live objects carry the content they were created with. */
  ghost predicate HeapAgrees<T, V>(p: Process<T, V>) {
    forall a :: a in p.heap ==> p.heap[a].serial < |p.created| && p.heap[a].content == p.created[p.heap[a].serial]
  }

  /** The stored diagonal is the kernel's value on the objects the references were made for. */
  ghost predicate SlotAgrees<T, V>(kernel: Kernel<T, V>, p: Process<T, V>) {
    p.slot.Loaded? ==>
      && (forall i :: 0 <= i < |p.slot.refs| ==> p.slot.refs[i].serial < |p.created|)
      && p.slot.diagonal == kernel(p.slot.meta, Remembered(p))
  }

  ghost function Remembered<T, V>(p: Process<T, V>): (c: seq<Option<T>>)
    requires p.slot.Loaded? && forall i :: 0 <= i < |p.slot.refs| ==> p.slot.refs[i].serial < |p.created|
  {
    seq(|p.slot.refs|, i requires 0 <= i < |p.slot.refs| => Some(p.created[p.slot.refs[i].serial]))
  }

  ghost predicate Agrees<T, V>(kernel: Kernel<T, V>, p: Process<T, V>) {
    HeapAgrees(p) && SlotAgrees(kernel, p)
  }

  /** A hit happens only for the very objects the references were made for. */
  lemma HitIsSameObjects<T, V>(p: Process<T, V>, meta: Meta, operands: seq<nat>)
    requires Lookup(p.slot, p.heap, meta, operands).Some?
    ensures p.slot.Loaded? && p.slot.meta == meta && |p.slot.refs| == |operands|
    ensures forall i :: 0 <= i < |operands| ==>
      operands[i] in p.heap && p.slot.refs[i] == Ref(operands[i], p.heap[operands[i]].serial)
  {
    forall i | 0 <= i < |operands|
      ensures operands[i] in p.heap && p.slot.refs[i] == Ref(operands[i], p.heap[operands[i]].serial)
    {
      assert Deref(p.heap, p.slot.refs[i]) == Some(operands[i]);
    }
  }

  /** In an agreeing state a build returns the kernel's value on its operands' contents. */
  lemma BuildIsFresh<T, V>(kernel: Kernel<T, V>, p: Process<T, V>, meta: Meta, operands: seq<Option<nat>>, memo: bool)
    requires Agrees(kernel, p) && Given(p.heap, operands)
    ensures Built(kernel, p.slot, p.heap, meta, operands, memo).0 == kernel(meta, Contents(p.heap, operands))
  {
    if memo && Complete(operands) && Lookup(p.slot, p.heap, meta, Addresses(operands)).Some? {
      HitIsSameObjects(p, meta, Addresses(operands));
      assert Remembered(p) == Contents(p.heap, operands);
    }
  }

  lemma StepKeepsAgreement<T, V>(kernel: Kernel<T, V>, p: Process<T, V>, e: Event<T>)
    requires Agrees(kernel, p) && Possible(p, e)
    ensures Agrees(kernel, Step(kernel, p, e))
  {
    var q := Step(kernel, p, e);
    match e {
      case Create(a, content, _) =>
        if p.slot.Loaded? {
          assert Remembered(q) == Remembered(p);
        }
      case Die(_) =>
        if p.slot.Loaded? {
          assert Remembered(q) == Remembered(p);
        }
      case Build(meta, operands, memo) =>
        if q.slot == p.slot {
          if p.slot.Loaded? {
            assert Remembered(q) == Remembered(p);
          }
        } else if q.slot.Loaded? {
          assert Remembered(q) == Contents(p.heap, operands);
        }
      case Clear =>
    }
  }

  lemma {:induction false} HistoryKeepsAgreement<T, V>(kernel: Kernel<T, V>, p: Process<T, V>, events: seq<Event<T>>)
    requires Agrees(kernel, p) && History(kernel, p, events)
    ensures Agrees(kernel, After(kernel, p, events))
    decreases |events|
  {
    if events != [] {
      StepKeepsAgreement(kernel, p, events[0]);
      HistoryKeepsAgreement(kernel, Step(kernel, p, events[0]), events[1..]);
    }
  }

  /**
   After any history of creations, deaths, builds and clears, a build returns what the
   kernel computes for that call's operands and metadata.
   */
  lemma EveryBuildIsFresh<T, V>(kernel: Kernel<T, V>, events: seq<Event<T>>, meta: Meta, operands: seq<Option<nat>>, memo: bool)
    requires History(kernel, Process(map[], [], Empty), events)
    requires Given(After(kernel, Process(map[], [], Empty), events).heap, operands)
    ensures var p := After(kernel, Process(map[], [], Empty), events);
      Built(kernel, p.slot, p.heap, meta, operands, memo).0 == kernel(meta, Contents(p.heap, operands))
  {
    var start: Process<T, V> := Process(map[], [], Empty);
    HistoryKeepsAgreement(kernel, start, events);
    BuildIsFresh(kernel, After(kernel, start, events), meta, operands, memo);
  }

  /** Building again with the same live objects is a hit and keeps the slot. */
  lemma RepeatIsAHit<T, V>(kernel: Kernel<T, V>, p: Process<T, V>, meta: Meta, operands: seq<Option<nat>>)
    requires Given(p.heap, operands) && Complete(operands) && AllWeakrefable(p.heap, Addresses(operands))
    ensures var (out, slot) := Built(kernel, p.slot, p.heap, meta, operands, true);
      Lookup(slot, p.heap, meta, Addresses(operands)) == Some(out)
  {
    var (out, slot) := Built(kernel, p.slot, p.heap, meta, operands, true);
    if Lookup(p.slot, p.heap, meta, Addresses(operands)).None? {
      assert slot == Loaded(meta, Refs(p.heap, Addresses(operands)), out);
      forall i | 0 <= i < |operands|
        ensures Deref(p.heap, slot.refs[i]) == Some(Addresses(operands)[i])
      {
      }
    }
  }

  /** The event is a build with the slot's metadata on the addresses its references were made for. */
  ghost predicate StoredBy<T, V>(slot: Slot<V>, e: Event<T>) {
    && slot.Loaded? && e.Build? && e.memo && e.meta == slot.meta && |e.operands| == |slot.refs|
    && forall k :: 0 <= k < |slot.refs| ==> e.operands[k] == Some(slot.refs[k].address)
  }

  ghost predicate NoClearFrom<T>(events: seq<Event<T>>, i: nat) {
    forall j :: i <= j < |events| ==> !events[j].Clear?
  }

  /** A build stores its own metadata and addresses or leaves the slot. */
  lemma BuildStores<T, V>(kernel: Kernel<T, V>, p: Process<T, V>, e: Event<T>)
    requires e.Build? && Possible(p, e)
    ensures var slot := Step(kernel, p, e).slot; slot == p.slot || slot == Empty || StoredBy(slot, e)
  {
  }

  lemma {:induction false} LoadedByBuild<T, V>(kernel: Kernel<T, V>, p: Process<T, V>, events: seq<Event<T>>)
    requires History(kernel, p, events) && After(kernel, p, events).slot.Loaded?
    ensures var slot := After(kernel, p, events).slot;
      || (slot == p.slot && NoClearFrom(events, 0))
      || exists i: nat :: i < |events| && StoredBy(slot, events[i]) && NoClearFrom(events, i)
    decreases |events|
  {
    if events != [] {
      var q, rest := Step(kernel, p, events[0]), events[1..];
      LoadedByBuild(kernel, q, rest);
      var slot := After(kernel, q, rest).slot;
      if slot == q.slot && NoClearFrom(rest, 0) {
        if events[0].Build? {
          BuildStores(kernel, p, events[0]);
        }
        assert forall j :: 1 <= j < |events| ==> events[j] == rest[j - 1];
        assert !events[0].Clear? ==> NoClearFrom(events, 0);
      } else {
        var i: nat :| i < |rest| && StoredBy(slot, rest[i]) && NoClearFrom(rest, i);
        assert forall j :: 1 <= j < |events| ==> events[j] == rest[j - 1];
        assert StoredBy(slot, events[i + 1]) && NoClearFrom(events, i + 1);
      }
    }
  }

  /** A hit goes back to a build on these very addresses and this metadata, with no clear since. */
  lemma HitHasBuild<T, V>(kernel: Kernel<T, V>, events: seq<Event<T>>, meta: Meta, operands: seq<nat>)
    requires History(kernel, Process(map[], [], Empty), events)
    requires var p := After(kernel, Process(map[], [], Empty), events); Lookup(p.slot, p.heap, meta, operands).Some?
    ensures exists i: nat :: i < |events| && events[i].Build? && events[i].memo && events[i].meta == meta
                             && Complete(events[i].operands) && Addresses(events[i].operands) == operands
                             && NoClearFrom(events, i)
  {
    var start: Process<T, V> := Process(map[], [], Empty);
    var p := After(kernel, start, events);
    HitIsSameObjects(p, meta, operands);
    LoadedByBuild(kernel, start, events);
    hide History, After, Lookup, NoClearFrom;
    var i: nat :| i < |events| && StoredBy(p.slot, events[i]) && NoClearFrom(events, i);
    assert Complete(events[i].operands) && Addresses(events[i].operands) == operands;
  }

  // ---------------------------------------------------------------- why addresses alone will not do

  /** A lookup that compares addresses only. */
  ghost function LookupByAddress<V>(slot: Slot<V>, meta: Meta, operands: seq<nat>): Option<V> {
    if && slot.Loaded? && slot.meta == meta && |slot.refs| == |operands|
       && (forall i :: 0 <= i < |operands| ==> slot.refs[i].address == operands[i])
    then Some(slot.diagonal) else None
  }

  /** After a death and a creation at the same address, comparing addresses hands back a stale diagonal. */
  lemma RecycledAddressIsStale<T, V>(kernel: Kernel<T, V>, meta: Meta, old_: T, new_: T)
    requires kernel(meta, [Some(old_)]) != kernel(meta, [Some(new_)])
    ensures var events := [Create(7, old_, true), Build(meta, [Some(7)], true), Die(7), Create(7, new_, true)];
      var start: Process<T, V> := Process(map[], [], Empty);
      && History(kernel, start, events)
      && var p := After(kernel, start, events);
         && Given(p.heap, [Some(7)])
         && LookupByAddress(p.slot, meta, [7]) == Some(kernel(meta, [Some(old_)]))
         && Lookup(p.slot, p.heap, meta, [7]) == None
  {
    var start: Process<T, V> := Process(map[], [], Empty);
    var p1 := Step(kernel, start, Create(7, old_, true));
    var operands: seq<Option<nat>> := [Some(7)];
    assert Addresses(operands) == [7] && Contents(p1.heap, operands) == [Some(old_)];
    var p2 := Step(kernel, p1, Build(meta, operands, true));
    assert Refs(p1.heap, [7]) == [Ref(7, 0)];
    assert p2.slot == Loaded(meta, [Ref(7, 0)], kernel(meta, [Some(old_)]));
    var p3 := Step(kernel, p2, Die(7));
    var p4 := Step(kernel, p3, Create(7, new_, true));
    assert Deref(p4.heap, p4.slot.refs[0]) == None;
    var e3 := [Create(7, new_, true)];
    var e2 := [Die(7)] + e3;
    var e1 := [Build(meta, operands, true)] + e2;
    var events := [Create(7, old_, true)] + e1;
    assert events[1..] == e1 && e1[1..] == e2 && e2[1..] == e3 && e3[1..] == [];
    assert History(kernel, p4, []) && After(kernel, p4, []) == p4;
    assert History(kernel, p3, e3) && After(kernel, p3, e3) == p4;
    assert History(kernel, p2, e2) && After(kernel, p2, e2) == p4;
    assert History(kernel, p1, e1) && After(kernel, p1, e1) == p4;
    assert events == [Create(7, old_, true), Build(meta, [Some(7)], true), Die(7), Create(7, new_, true)];
  }
}
