/** Ownership of nested objects over runs of accessors: a machine on pointers, as the headers
    implement it for Response, against a machine on values in which nothing can be shared. The
    content of a nested object is any type with any merge. */
module Ownership {
  import opened Wire

  /** region_error, locked, range and exec_details. */
  const NESTED := 4

  type Id = nat
  type NestedField = f: nat | f < NESTED
  datatype Slot = Slot(msg: nat, field: NestedField)
  datatype Class<!T> = Class(merge: (T, T) -> T, initial: T)

  /** `ptr` holds the non-null pointer fields, `caller` the objects the program must delete itself,
      `deleted` those already deleted, `store` what the live ones contain; ids below `next` have been
      allocated. */
  datatype Heap<T> = Heap(ptr: map<Slot, Id>, caller: set<Id>, deleted: multiset<Id>, store: map<Id, T>, next: Id)

  datatype Step<T> =
    | New
    | Delete(p: Id)
    | Mutable(at: Slot)
    | Write(at: Slot, t: T)         // *mutable_*() = t
    | WriteObject(p: Id, t: T)      // *p = t, through any pointer the program has kept
    | Release(at: Slot)
    | SetAllocated(at: Slot, q: Option<Id>)
    | ClearField(at: Slot)
    | Clear(m: nat)
    | MergeFrom(m: nat, n: nat)
    | CopyFrom(m: nat, n: nat)
    | Swap(m: nat, n: nat)

  // ---------------------------------------------------------------- the machine on pointers

  function Read<T>(c: Class<T>, h: Heap<T>, p: Id): T {
    if p in h.store then h.store[p] else c.initial
  }

  /** mutable_*: allocates when the field is null. */
  function Touch<T>(c: Class<T>, h: Heap<T>, a: Slot): (g: Heap<T>)
    ensures a in g.ptr
  {
    if a in h.ptr then h
    else h.(ptr := h.ptr[a := h.next], store := h.store[h.next := c.initial], next := h.next + 1)
  }

  function Assign<T>(c: Class<T>, h: Heap<T>, a: Slot, t: T): Heap<T> {
    var g := Touch(c, h, a);
    g.(store := g.store[g.ptr[a] := t])
  }

  /** Deletes the object in a field, when there is one, and nulls the field. */
  function Drop<T>(h: Heap<T>, a: Slot): Heap<T> {
    if a in h.ptr then Free(h.(ptr := h.ptr - {a}), h.ptr[a]) else h
  }

  function Free<T>(h: Heap<T>, p: Id): Heap<T> {
    h.(store := h.store - {p}, deleted := h.deleted + multiset{p})
  }

  /** The program hands an object over to a field. */
  function Give<T>(h: Heap<T>, a: Slot, q: Id): Heap<T> {
    h.(ptr := h.ptr[a := q], caller := h.caller - {q})
  }

  function DropUpTo<T>(h: Heap<T>, m: nat, k: nat): Heap<T>
    requires k <= NESTED
  {
    if k == 0 then h else Drop(DropUpTo(h, m, k - 1), Slot(m, k - 1))
  }

  /** One nested field of MergeFrom: when the source has it, merge it into mutable_*. */
  function MergeField<T>(c: Class<T>, h: Heap<T>, a: Slot, b: Slot): Heap<T> {
    if b !in h.ptr then h
    else
      var was := if a in h.ptr then Read(c, h, h.ptr[a]) else c.initial;
      Assign(c, h, a, c.merge(was, Read(c, h, h.ptr[b])))
  }

  function MergeUpTo<T>(c: Class<T>, h: Heap<T>, m: nat, n: nat, k: nat): Heap<T>
    requires k <= NESTED
  {
    if k == 0 then h else MergeField(c, MergeUpTo(c, h, m, n, k - 1), Slot(m, k - 1), Slot(n, k - 1))
  }

  function Exchanged(a: Slot, m: nat, n: nat): Slot {
    if a.msg == m then Slot(n, a.field)
    else if a.msg == n then Slot(m, a.field)
    else a
  }

  /** The pointer fields after a swap. */
  function Swapped<V>(v: map<Slot, V>, m: nat, n: nat): map<Slot, V> {
    map b | b in set a | a in v :: Exchanged(a, m, n) :: v[Exchanged(b, m, n)]
  }

  /** What the code does, whether or not its caller was entitled to call it. */
  function Do<T>(c: Class<T>, h: Heap<T>, step: Step<T>): Heap<T> {
    match step
    case New => h.(caller := h.caller + {h.next}, store := h.store[h.next := c.initial], next := h.next + 1)
    case Delete(p) => Free(h.(caller := h.caller - {p}), p)
    case Mutable(a) => Touch(c, h, a)
    case Write(a, t) => Assign(c, h, a, t)
    case WriteObject(p, t) => h.(store := h.store[p := t])
    case Release(a) =>
      if a in h.ptr then h.(ptr := h.ptr - {a}, caller := h.caller + {h.ptr[a]}) else h
    case SetAllocated(a, q) =>
      var g := Drop(h, a);
      if q.None? then g else Give(g, a, q.value)
    case ClearField(a) => Drop(h, a)
    case Clear(m) => DropUpTo(h, m, NESTED)
    case MergeFrom(m, n) => MergeUpTo(c, h, m, n, NESTED)
    case CopyFrom(m, n) => if m == n then h else MergeUpTo(c, DropUpTo(h, m, NESTED), m, n, NESTED)
    case Swap(m, n) => h.(ptr := Swapped(h.ptr, m, n))
  }

  function Run<T>(c: Class<T>, h: Heap<T>, steps: seq<Step<T>>): Heap<T> {
    if steps == [] then h else Do(c, Run(c, h, steps[..|steps| - 1]), steps[|steps| - 1])
  }

  /** Every object ever allocated is in exactly one place: one field of one message, with the
      program, or deleted once; and memory is in use for exactly those not deleted. */
  ghost predicate Owned<T(!new)>(h: Heap<T>) {
    && (forall a, b :: a in h.ptr && b in h.ptr && h.ptr[a] == h.ptr[b] ==> a == b)
    && (forall a :: a in h.ptr ==> h.ptr[a] !in h.caller)
    && (forall p :: p in h.deleted ==> p !in h.store && h.deleted[p] == 1)
    && (forall p :: p in h.store || p in h.deleted <==> p < h.next)
    && (forall p :: p in h.store <==> p in h.caller || Pointed(h, p))
  }

  ghost predicate Pointed<T>(h: Heap<T>, p: Id) {
    exists a :: a in h.ptr && h.ptr[a] == p
  }

  /** What the headers ask of the caller: to delete, or to give to a message, only what it owns, and
      to write only to objects that have not been deleted. */
  predicate Entitled<T>(h: Heap<T>, step: Step<T>) {
    match step
    case Delete(p) => p in h.caller
    case SetAllocated(_, q) => q.Some? ==> q.value in h.caller
    case WriteObject(p, _) => p in h.store
    case _ => true
  }

  // ---------------------------------------------------------------- the machine on values

  function Contents<T>(c: Class<T>, h: Heap<T>): map<Slot, T> {
    map a | a in h.ptr :: Read(c, h, h.ptr[a])
  }

  function Cleared<T>(v: map<Slot, T>, m: nat, k: nat): map<Slot, T> {
    map a | a in v && !(a.msg == m && a.field < k) :: v[a]
  }

  function Merged<T>(c: Class<T>, v: map<Slot, T>, m: nat, n: nat, k: nat): map<Slot, T> {
    map a | a in v.Keys + set b | b in v && b.msg == n && b.field < k :: Slot(m, b.field) ::
      if a.msg == m && a.field < k && Slot(n, a.field) in v
      then c.merge(if a in v then v[a] else c.initial, v[Slot(n, a.field)])
      else v[a]
  }

  /** What a step does to the nested values of all messages; `given` is the value given away to a
      message by SetAllocated, `home` the field that owns the object WriteObject writes to, if any. */
  function Meant<T>(c: Class<T>, v: map<Slot, T>, step: Step<T>, given: T, home: Option<Slot>): map<Slot, T> {
    match step
    case New => v
    case Delete(_) => v
    case Mutable(a) => if a in v then v else v[a := c.initial]
    case Write(a, t) => v[a := t]
    case WriteObject(_, t) => if home.None? then v else v[home.value := t]
    case Release(a) => v - {a}
    case SetAllocated(a, q) => if q.None? then v - {a} else v[a := given]
    case ClearField(a) => v - {a}
    case Clear(m) => Cleared(v, m, NESTED)
    case MergeFrom(m, n) => Merged(c, v, m, n, NESTED)
    case CopyFrom(m, n) => if m == n then v else Merged(c, Cleared(v, m, NESTED), m, n, NESTED)
    case Swap(m, n) => Swapped(v, m, n)
  }

  // ---------------------------------------------------------------- every step

  /** The values are `v`: the same fields are non-null, and point at these values. */
  ghost predicate Holds<T>(c: Class<T>, h: Heap<T>, v: map<Slot, T>) {
    && (forall a :: a in v <==> a in h.ptr)
    && forall a :: a in h.ptr ==> v[a] == Read(c, h, h.ptr[a])
  }

  lemma {:induction false} HoldsContents<T>(c: Class<T>, h: Heap<T>, v: map<Slot, T>)
    ensures Holds(c, h, v) <==> v == Contents(c, h)
  {
  }

  /** Every object pointed at has been allocated, and by no two fields. */
  ghost predicate Unshared<T(!new)>(h: Heap<T>) {
    && (forall a, b :: a in h.ptr && b in h.ptr && h.ptr[a] == h.ptr[b] ==> a == b)
    && forall a :: a in h.ptr ==> h.ptr[a] in h.store && h.ptr[a] < h.next
  }

  lemma {:induction false} OwnedIsUnshared<T(!new)>(h: Heap<T>)
    requires Owned(h)
    ensures Unshared(h)
  {
    forall a | a in h.ptr ensures h.ptr[a] in h.store {
      assert Pointed(h, h.ptr[a]);
    }
  }

  lemma {:induction false} TouchOwned<T(!new)>(c: Class<T>, h: Heap<T>, a: Slot)
    requires Owned(h)
    ensures Owned(Touch(c, h, a))
  {
    var g := Touch(c, h, a);
    if a !in h.ptr {
      OwnedIsUnshared(h);
      assert g.ptr[a] == h.next;
      forall p ensures Pointed(g, p) <==> Pointed(h, p) || p == h.next {
        if Pointed(h, p) {
          var b :| b in h.ptr && h.ptr[b] == p;
          assert b in g.ptr && g.ptr[b] == p;
        }
      }
    }
  }

  lemma {:induction false} TouchHolds<T(!new)>(c: Class<T>, h: Heap<T>, a: Slot, v: map<Slot, T>)
    requires Unshared(h) && Holds(c, h, v)
    ensures Holds(c, Touch(c, h, a), if a in v then v else v[a := c.initial])
  {
  }

  lemma {:induction false} AssignOwned<T(!new)>(c: Class<T>, h: Heap<T>, a: Slot, t: T)
    requires Owned(h)
    ensures Owned(Assign(c, h, a, t))
  {
    TouchOwned(c, h, a);
    var g, f := Touch(c, h, a), Assign(c, h, a, t);
    assert Pointed(g, g.ptr[a]);
    forall p ensures Pointed(f, p) <==> Pointed(g, p) {
    }
    assert f.store.Keys == g.store.Keys;
  }

  lemma {:induction false} AssignHolds<T(!new)>(c: Class<T>, h: Heap<T>, a: Slot, t: T, v: map<Slot, T>)
    requires Unshared(h) && Holds(c, h, v)
    ensures Holds(c, Assign(c, h, a, t), v[a := t])
  {
    TouchHolds(c, h, a, v);
  }

  lemma {:induction false} AssignKeeps<T(!new)>(c: Class<T>, h: Heap<T>, a: Slot, t: T, v: map<Slot, T>)
    requires Owned(h) && Holds(c, h, v)
    ensures Owned(Assign(c, h, a, t)) && Holds(c, Assign(c, h, a, t), v[a := t])
  {
    hide Owned, Unshared, Holds;
    OwnedIsUnshared(h);
    AssignOwned(c, h, a, t);
    AssignHolds(c, h, a, t, v);
  }

  lemma {:induction false} DropOwned<T(!new)>(h: Heap<T>, a: Slot)
    requires Owned(h)
    ensures Owned(Drop(h, a))
  {
    var g := Drop(h, a);
    if a in h.ptr {
      assert Pointed(h, h.ptr[a]);
      forall p ensures Pointed(h, p) <==> Pointed(g, p) || p == h.ptr[a] {
        if Pointed(h, p) && p != h.ptr[a] {
          var b :| b in h.ptr && h.ptr[b] == p;
          assert b in g.ptr && g.ptr[b] == p;
        }
      }
    }
  }

  lemma {:induction false} DropHolds<T(!new)>(c: Class<T>, h: Heap<T>, a: Slot, v: map<Slot, T>)
    requires Unshared(h) && Holds(c, h, v)
    ensures Holds(c, Drop(h, a), v - {a})
  {
  }

  lemma {:induction false} DropUpToKeeps<T(!new)>(c: Class<T>, h: Heap<T>, m: nat, k: nat, v: map<Slot, T>)
    requires k <= NESTED && Owned(h) && Holds(c, h, v)
    ensures Owned(DropUpTo(h, m, k)) && Holds(c, DropUpTo(h, m, k), Cleared(v, m, k))
  {
    hide Owned, Unshared, Holds, Drop;
    if k == 0 {
      assert Cleared(v, m, 0) == v;
    } else {
      DropUpToKeeps(c, h, m, k - 1, v);
      OwnedIsUnshared(DropUpTo(h, m, k - 1));
      DropOwned(DropUpTo(h, m, k - 1), Slot(m, k - 1));
      DropHolds(c, DropUpTo(h, m, k - 1), Slot(m, k - 1), Cleared(v, m, k - 1));
      assert Cleared(v, m, k) == Cleared(v, m, k - 1) - {Slot(m, k - 1)};
    }
  }

  function MergedField<T>(c: Class<T>, v: map<Slot, T>, a: Slot, b: Slot): map<Slot, T> {
    if b in v then v[a := c.merge(if a in v then v[a] else c.initial, v[b])] else v
  }

  lemma {:induction false} MergedNone<T>(c: Class<T>, v: map<Slot, T>, m: nat, n: nat)
    ensures Merged(c, v, m, n, 0) == v
  {
  }

  lemma {:induction false} MergedStep<T>(c: Class<T>, v: map<Slot, T>, m: nat, n: nat, k: nat)
    requires k < NESTED
    ensures Merged(c, v, m, n, k + 1) == MergedField(c, Merged(c, v, m, n, k), Slot(m, k), Slot(n, k))
  {
  }

  lemma {:induction false} MergeFieldKeeps<T(!new)>(c: Class<T>, h: Heap<T>, a: Slot, b: Slot, v: map<Slot, T>)
    requires Owned(h) && Holds(c, h, v)
    ensures Owned(MergeField(c, h, a, b)) && Holds(c, MergeField(c, h, a, b), MergedField(c, v, a, b))
  {
    hide Owned, Assign;
    if b in h.ptr {
      AssignKeeps(c, h, a, c.merge(if a in v then v[a] else c.initial, v[b]), v);
    }
  }

  lemma {:induction false} MergeUpToKeeps<T(!new)>(c: Class<T>, h: Heap<T>, m: nat, n: nat, k: nat, v: map<Slot, T>)
    requires k <= NESTED && Owned(h) && Holds(c, h, v)
    ensures Owned(MergeUpTo(c, h, m, n, k)) && Holds(c, MergeUpTo(c, h, m, n, k), Merged(c, v, m, n, k))
  {
    hide Owned, Holds, MergeField, MergedField, Merged;
    if k == 0 {
      MergedNone(c, v, m, n);
    } else {
      MergeUpToKeeps(c, h, m, n, k - 1, v);
      MergedStep(c, v, m, n, k - 1);
      MergeFieldKeeps(c, MergeUpTo(c, h, m, n, k - 1), Slot(m, k - 1), Slot(n, k - 1), Merged(c, v, m, n, k - 1));
    }
  }

  lemma {:induction false} SwappedAt<V>(v: map<Slot, V>, m: nat, n: nat)
    ensures forall a :: a in Swapped(v, m, n) <==> Exchanged(a, m, n) in v
    ensures forall a :: Exchanged(a, m, n) in v ==> Swapped(v, m, n)[a] == v[Exchanged(a, m, n)]
    ensures forall a :: Exchanged(Exchanged(a, m, n), m, n) == a
  {
    forall a | Exchanged(a, m, n) in v ensures a in Swapped(v, m, n) {
      assert Exchanged(Exchanged(a, m, n), m, n) == a;
    }
  }

  lemma {:induction false} SwapOwned<T(!new)>(c: Class<T>, h: Heap<T>, m: nat, n: nat)
    requires Owned(h)
    ensures Owned(h.(ptr := Swapped(h.ptr, m, n)))
  {
    var g := h.(ptr := Swapped(h.ptr, m, n));
    SwappedAt(h.ptr, m, n);
    hide Swapped, Exchanged;
    forall p ensures Pointed(g, p) <==> Pointed(h, p) {
      if Pointed(h, p) {
        var a :| a in h.ptr && h.ptr[a] == p;
        assert g.ptr[Exchanged(a, m, n)] == p;
      }
    }
    forall a, b | a in g.ptr && b in g.ptr && g.ptr[a] == g.ptr[b] ensures a == b {
      assert Exchanged(Exchanged(a, m, n), m, n) == a && Exchanged(Exchanged(b, m, n), m, n) == b;
    }
  }

  lemma {:induction false} SwapHolds<T>(c: Class<T>, h: Heap<T>, m: nat, n: nat, v: map<Slot, T>)
    requires Holds(c, h, v)
    ensures Holds(c, h.(ptr := Swapped(h.ptr, m, n)), Swapped(v, m, n))
  {
  }

  lemma {:induction false} ReleaseOwned<T(!new)>(c: Class<T>, h: Heap<T>, a: Slot)
    requires Owned(h)
    ensures Owned(Do(c, h, Release(a)))
  {
    var g := Do(c, h, Release(a));
    if a in h.ptr {
      assert Pointed(h, h.ptr[a]);
      forall p ensures Pointed(h, p) <==> Pointed(g, p) || p == h.ptr[a] {
        if Pointed(h, p) && p != h.ptr[a] {
          var b :| b in h.ptr && h.ptr[b] == p;
          assert b in g.ptr && g.ptr[b] == p;
        }
      }
    }
  }

  lemma {:induction false} GivePointed<T(!new)>(h: Heap<T>, a: Slot, q: Id, p: Id)
    requires a !in h.ptr
    ensures Pointed(Give(h, a, q), p) <==> Pointed(h, p) || p == q
  {
    var g := Give(h, a, q);
    assert g.ptr[a] == q;
    if Pointed(h, p) {
      var b :| b in h.ptr && h.ptr[b] == p;
      assert b in g.ptr && g.ptr[b] == p;
    }
  }

  lemma {:induction false} GiveOwned<T(!new)>(h: Heap<T>, a: Slot, q: Id)
    requires Owned(h) && a !in h.ptr && q in h.caller
    ensures Owned(Give(h, a, q))
  {
    forall p ensures Pointed(Give(h, a, q), p) <==> Pointed(h, p) || p == q {
      GivePointed(h, a, q, p);
    }
  }

  lemma {:induction false} GiveOthers<T(!new)>(h: Heap<T>, a: Slot, q: Id)
    requires Owned(h) && a !in h.ptr && q !in h.caller
    ensures !Owned(Give(h, a, q))
  {
    var g := Give(h, a, q);
    GivePointed(h, a, q, q);
    assert g.ptr[a] == q;
    if Pointed(h, q) {
      var b :| b in h.ptr && h.ptr[b] == q;
      assert b != a && g.ptr[b] == g.ptr[a];
    }
  }

  lemma {:induction false} DeleteOwned<T(!new)>(h: Heap<T>, p: Id)
    requires Owned(h)
    ensures Owned(Free(h.(caller := h.caller - {p}), p)) <==> p in h.caller
  {
    var g := Free(h.(caller := h.caller - {p}), p);
    forall q ensures Pointed(g, q) <==> Pointed(h, q) {
    }
  }

  /** A step keeps every object owned exactly once if and only if its caller was entitled to it. */
  lemma {:induction false} StepKeepsOwned<T(!new)>(c: Class<T>, h: Heap<T>, step: Step<T>)
    requires Owned(h)
    ensures Owned(Do(c, h, step)) <==> Entitled(h, step)
  {
    var v := Contents(c, h);
    HoldsContents(c, h, v);
    DropCaller(h, step);
    hide Owned, Holds, Contents, Touch, Assign, Drop, DropUpTo, MergeUpTo, Swapped, Cleared, Give;
    match step
    case New => NewOwned(c, h);
    case Delete(p) => DeleteOwned(h, p);
    case Mutable(a) => TouchOwned(c, h, a);
    case Write(a, t) => AssignOwned(c, h, a, t);
    case WriteObject(p, t) => WriteOwned(h, p, t);
    case Release(a) => ReleaseOwned(c, h, a);
    case SetAllocated(a, q) =>
      DropOwned(h, a);
      if q.Some? {
        if q.value in h.caller {
          GiveOwned(Drop(h, a), a, q.value);
        } else {
          GiveOthers(Drop(h, a), a, q.value);
        }
      }
    case ClearField(a) => DropOwned(h, a);
    case Clear(m) => DropUpToKeeps(c, h, m, NESTED, v);
    case MergeFrom(m, n) => MergeUpToKeeps(c, h, m, n, NESTED, v);
    case CopyFrom(m, n) =>
      DropUpToKeeps(c, h, m, NESTED, v);
      MergeUpToKeeps(c, DropUpTo(h, m, NESTED), m, n, NESTED, Cleared(v, m, NESTED));
    case Swap(m, n) => SwapOwned(c, h, m, n);
  }

  lemma {:induction false} DropCaller<T>(h: Heap<T>, step: Step<T>)
    ensures step.SetAllocated? ==> Drop(h, step.at).caller == h.caller && step.at !in Drop(h, step.at).ptr
  {
  }

  lemma {:induction false} WriteOwned<T(!new)>(h: Heap<T>, p: Id, t: T)
    requires Owned(h)
    ensures Owned(h.(store := h.store[p := t])) <==> p in h.store
  {
    var g := h.(store := h.store[p := t]);
    forall q ensures Pointed(g, q) <==> Pointed(h, q) {
    }
    if p in h.store {
      assert g.store.Keys == h.store.Keys;
    } else {
      assert p in g.store && p !in h.caller && !Pointed(h, p);
    }
  }

  lemma {:induction false} NewOwned<T(!new)>(c: Class<T>, h: Heap<T>)
    requires Owned(h)
    ensures Owned(Do(c, h, New))
  {
    OwnedIsUnshared(h);
    var g := Do(c, h, New);
    forall p ensures Pointed(g, p) <==> Pointed(h, p) {
    }
  }

  /** The value that SetAllocated puts into a message. */
  function Given<T>(c: Class<T>, h: Heap<T>, step: Step<T>): T {
    if step.SetAllocated? && step.q.Some? then Read(c, h, step.q.value) else c.initial
  }

  /** The field that owns an object. */
  ghost function Home<T>(h: Heap<T>, p: Id): (a: Option<Slot>)
    ensures a.Some? <==> Pointed(h, p)
    ensures a.Some? ==> a.value in h.ptr && h.ptr[a.value] == p
  {
    if Pointed(h, p) then
      var a :| a in h.ptr && h.ptr[a] == p;
      Some(a)
    else None
  }

  ghost function Target<T>(h: Heap<T>, step: Step<T>): Option<Slot> {
    if step.WriteObject? then Home(h, step.p) else None
  }

  lemma {:induction false} StepHolds<T(!new)>(c: Class<T>, h: Heap<T>, step: Step<T>, v: map<Slot, T>)
    requires Owned(h) && Entitled(h, step) && Holds(c, h, v)
    ensures Holds(c, Do(c, h, step), Meant(c, v, step, Given(c, h, step), Target(h, step)))
  {
    hide Owned, Unshared, Holds, Contents, Touch, Assign, Drop, DropUpTo, MergeUpTo, Swapped, Cleared, Merged;
    hide Give, Free, Pointed, Home;
    OwnedIsUnshared(h);
    if step.Delete? {
      CallerIsUnpointed(h, step.p);
    } else if step.SetAllocated? && step.q.Some? {
      CallerIsUnpointed(h, step.q.value);
    }
    match step
    case New => NewHolds(c, h, v);
    case Delete(p) => FreeHolds(c, h, p, v);
    case Mutable(a) => TouchHolds(c, h, a, v);
    case Write(a, t) => AssignHolds(c, h, a, t, v);
    case WriteObject(p, t) => WriteHolds(c, h, p, t, v);
    case Release(a) => ReleaseHolds(c, h, a, v);
    case SetAllocated(a, q) =>
      if q.Some? {
        GiveHolds(c, h, a, q.value, v);
      } else {
        DropHolds(c, h, a, v);
      }
    case ClearField(a) => DropHolds(c, h, a, v);
    case Clear(m) => DropUpToKeeps(c, h, m, NESTED, v);
    case MergeFrom(m, n) => MergeUpToKeeps(c, h, m, n, NESTED, v);
    case CopyFrom(m, n) =>
      DropUpToKeeps(c, h, m, NESTED, v);
      MergeUpToKeeps(c, DropUpTo(h, m, NESTED), m, n, NESTED, Cleared(v, m, NESTED));
    case Swap(m, n) => SwapHolds(c, h, m, n, v);
  }

  /** Since nothing is shared, the machine on pointers is the machine on values: a step changes
      the nested values it names, for the messages it names, and no others. */
  lemma {:induction false} StepMeans<T(!new)>(c: Class<T>, h: Heap<T>, step: Step<T>)
    requires Owned(h) && Entitled(h, step)
    ensures Contents(c, Do(c, h, step)) == Meant(c, Contents(c, h), step, Given(c, h, step), Target(h, step))
  {
    hide Owned, Holds, Do, Meant, Contents, Entitled;
    var v := Contents(c, h);
    HoldsContents(c, h, v);
    StepHolds(c, h, step, v);
    HoldsContents(c, Do(c, h, step), Meant(c, v, step, Given(c, h, step), Target(h, step)));
  }

  lemma {:induction false} WriteHolds<T(!new)>(c: Class<T>, h: Heap<T>, p: Id, t: T, v: map<Slot, T>)
    requires Unshared(h) && Holds(c, h, v)
    ensures Holds(c, h.(store := h.store[p := t]), if Home(h, p).None? then v else v[Home(h, p).value := t])
  {
    if Home(h, p).None? {
      forall a | a in h.ptr ensures h.ptr[a] != p {
        assert h.ptr[a] == p ==> Pointed(h, p);
      }
    }
  }

  lemma {:induction false} FreeHolds<T(!new)>(c: Class<T>, h: Heap<T>, p: Id, v: map<Slot, T>)
    requires Holds(c, h, v) && !Pointed(h, p)
    ensures Holds(c, Free(h.(caller := h.caller - {p}), p), v)
  {
    forall a | a in h.ptr ensures h.ptr[a] != p {
      assert h.ptr[a] == p ==> Pointed(h, p);
    }
  }

  lemma {:induction false} GiveHolds<T(!new)>(c: Class<T>, h: Heap<T>, a: Slot, q: Id, v: map<Slot, T>)
    requires Unshared(h) && Holds(c, h, v) && !Pointed(h, q)
    ensures Holds(c, Give(Drop(h, a), a, q), v[a := Read(c, h, q)])
  {
    DropHolds(c, h, a, v);
    if a in h.ptr {
      assert h.ptr[a] == q ==> Pointed(h, q);
    }
  }

  lemma {:induction false} ReleaseHolds<T(!new)>(c: Class<T>, h: Heap<T>, a: Slot, v: map<Slot, T>)
    requires Holds(c, h, v)
    ensures Holds(c, Do(c, h, Release(a)), v - {a})
  {
  }

  lemma {:induction false} NewHolds<T(!new)>(c: Class<T>, h: Heap<T>, v: map<Slot, T>)
    requires Unshared(h) && Holds(c, h, v)
    ensures Holds(c, Do(c, h, New), v)
  {
  }

  lemma {:induction false} CallerIsUnpointed<T(!new)>(h: Heap<T>, p: Id)
    requires Owned(h) && p in h.caller
    ensures !Pointed(h, p)
  {
  }

  // ---------------------------------------------------------------- whole runs

  ghost predicate SafeRun<T(!new)>(c: Class<T>, h: Heap<T>, steps: seq<Step<T>>) {
    forall i :: 0 <= i <= |steps| ==> Owned(Run(c, h, steps[..i]))
  }

  ghost predicate EntitledRun<T(!new)>(c: Class<T>, h: Heap<T>, steps: seq<Step<T>>) {
    forall i :: 0 <= i < |steps| ==> Entitled(Run(c, h, steps[..i]), steps[i])
  }

  lemma {:induction false} RunStep<T>(c: Class<T>, h: Heap<T>, steps: seq<Step<T>>, i: nat)
    requires i < |steps|
    ensures Run(c, h, steps[..i + 1]) == Do(c, Run(c, h, steps[..i]), steps[i])
  {
    assert steps[..i + 1][..i] == steps[..i];
  }

  lemma {:induction false} OwnedUpTo<T(!new)>(c: Class<T>, h: Heap<T>, steps: seq<Step<T>>, i: nat)
    requires Owned(h) && EntitledRun(c, h, steps) && i <= |steps|
    ensures Owned(Run(c, h, steps[..i]))
  {
    hide Owned, Entitled, Do;
    if i > 0 {
      OwnedUpTo(c, h, steps, i - 1);
      RunStep(c, h, steps, i - 1);
      StepKeepsOwned(c, Run(c, h, steps[..i - 1]), steps[i - 1]);
    }
  }

  /** A run keeps every object owned exactly once throughout if and only if every step of it gave
      away or deleted only what the program owned at that moment, and wrote only to live objects. */
  lemma {:induction false} RunsAreSafeExactly<T(!new)>(c: Class<T>, h: Heap<T>, steps: seq<Step<T>>)
    requires Owned(h)
    ensures SafeRun(c, h, steps) <==> EntitledRun(c, h, steps)
  {
    hide Owned, Entitled, Do, Run;
    if EntitledRun(c, h, steps) {
      forall i | 0 <= i <= |steps| ensures Owned(Run(c, h, steps[..i])) {
        OwnedUpTo(c, h, steps, i);
      }
    }
    if SafeRun(c, h, steps) {
      forall i | 0 <= i < |steps| ensures Entitled(Run(c, h, steps[..i]), steps[i]) {
        RunStep(c, h, steps, i);
        assert Owned(Run(c, h, steps[..i])) && Owned(Run(c, h, steps[..i + 1]));
        StepKeepsOwned(c, Run(c, h, steps[..i]), steps[i]);
      }
    }
  }

  /** The nested values after a run, computed on values alone but for those given to messages and
      the fields that own what is written through kept pointers. */
  ghost function MeantByRun<T>(c: Class<T>, h: Heap<T>, steps: seq<Step<T>>): map<Slot, T>
    decreases |steps|
  {
    if steps == [] then Contents(c, h)
    else
      var before, step := steps[..|steps| - 1], steps[|steps| - 1];
      var g := Run(c, h, before);
      Meant(c, MeantByRun(c, h, before), step, Given(c, g, step), Target(g, step))
  }

  /** Whole runs have value semantics: no write through one message is ever seen in another, and a
      write through a kept pointer is seen in the one field that then owns the object, if any. */
  lemma {:induction false} RunMeans<T(!new)>(c: Class<T>, h: Heap<T>, steps: seq<Step<T>>)
    requires Owned(h) && EntitledRun(c, h, steps)
    ensures Contents(c, Run(c, h, steps)) == MeantByRun(c, h, steps)
    decreases |steps|
  {
    hide Owned, Entitled, Do, Contents, Meant, Given, Target;
    if steps != [] {
      var n := |steps| - 1;
      var before := steps[..n];
      forall i | 0 <= i < n ensures Entitled(Run(c, h, before[..i]), before[i]) {
        assert before[..i] == steps[..i];
      }
      RunMeans(c, h, before);
      OwnedUpTo(c, h, steps, n);
      StepMeans(c, Run(c, h, before), steps[n]);
    }
  }

  function Start<T>(): Heap<T> {
    Heap(map[], {}, multiset{}, map[], 0)
  }

  /** Whether a field is present, read off the history alone: the last step that installed or
      removed something there decides; a swap moves the question to the other message. */
  ghost predicate Present<T>(steps: seq<Step<T>>, a: Slot)
    decreases |steps|
  {
    steps != [] &&
    var before := steps[..|steps| - 1];
    match steps[|steps| - 1]
    case New => Present(before, a)
    case Delete(_) => Present(before, a)
    case Mutable(b) => a == b || Present(before, a)
    case Write(b, _) => a == b || Present(before, a)
    case WriteObject(_, _) => Present(before, a)
    case Release(b) => a != b && Present(before, a)
    case SetAllocated(b, q) => if a == b then q.Some? else Present(before, a)
    case ClearField(b) => a != b && Present(before, a)
    case Clear(m) => a.msg != m && Present(before, a)
    case MergeFrom(m, n) => Present(before, a) || (a.msg == m && Present(before, Slot(n, a.field)))
    case CopyFrom(m, n) => if a.msg == m then Present(before, Slot(n, a.field)) else Present(before, a)
    case Swap(m, n) =>
      if a.msg == m then Present(before, Slot(n, a.field))
      else if a.msg == n then Present(before, Slot(m, a.field))
      else Present(before, a)
  }

  lemma {:induction false} DropPresence<T>(h: Heap<T>, m: nat, k: nat, a: Slot)
    requires k <= NESTED
    ensures a in DropUpTo(h, m, k).ptr <==> a in h.ptr && !(a.msg == m && a.field < k)
  {
    hide Drop;
    if k > 0 {
      DropPresence(h, m, k - 1, a);
      DropFieldPresence(DropUpTo(h, m, k - 1), Slot(m, k - 1), a);
    }
  }

  lemma {:induction false} DropFieldPresence<T>(h: Heap<T>, b: Slot, a: Slot)
    ensures a in Drop(h, b).ptr <==> a in h.ptr && a != b
  {
  }

  lemma {:induction false} MergeFieldPresence<T>(c: Class<T>, h: Heap<T>, x: Slot, y: Slot, a: Slot)
    ensures a in MergeField(c, h, x, y).ptr <==> a in h.ptr || (a == x && y in h.ptr)
  {
  }

  lemma {:induction false} MergePresence<T>(c: Class<T>, h: Heap<T>, m: nat, n: nat, k: nat, a: Slot)
    requires k <= NESTED
    ensures a in MergeUpTo(c, h, m, n, k).ptr
       <==> a in h.ptr || (a.msg == m && a.field < k && Slot(n, a.field) in h.ptr)
  {
    hide MergeField;
    if k > 0 {
      MergePresence(c, h, m, n, k - 1, a);
      MergePresence(c, h, m, n, k - 1, Slot(n, k - 1));
      MergeFieldPresence(c, MergeUpTo(c, h, m, n, k - 1), Slot(m, k - 1), Slot(n, k - 1), a);
    }
  }

  lemma {:induction false} FieldStepPresence<T>(c: Class<T>, h: Heap<T>, step: Step<T>, a: Slot)
    requires !step.Clear? && !step.MergeFrom? && !step.CopyFrom? && !step.Swap?
    ensures a in Do(c, h, step).ptr
       <==> match step
            case New => a in h.ptr
            case Delete(_) => a in h.ptr
            case Mutable(b) => a == b || a in h.ptr
            case Write(b, _) => a == b || a in h.ptr
            case WriteObject(_, _) => a in h.ptr
            case Release(b) => a != b && a in h.ptr
            case SetAllocated(b, q) => if a == b then q.Some? else a in h.ptr
            case ClearField(b) => a != b && a in h.ptr
            case _ => false
  {
  }

  /** Presence after any run at all, rightful or not. */
  lemma {:induction false} PresenceIsLastEffect<T(!new)>(c: Class<T>, steps: seq<Step<T>>, a: Slot)
    ensures a in Run(c, Start(), steps).ptr <==> Present(steps, a)
    decreases |steps|
  {
    if steps != [] {
      var before, step := steps[..|steps| - 1], steps[|steps| - 1];
      var h := Run(c, Start(), before);
      PresenceIsLastEffect(c, before, a);
      hide Run, DropUpTo, MergeUpTo, Swapped, Drop, Touch, Assign;
      match step
      case Clear(m) => DropPresence(h, m, NESTED, a);
      case MergeFrom(m, n) =>
        MergePresence(c, h, m, n, NESTED, a);
        PresenceIsLastEffect(c, before, Slot(n, a.field));
      case CopyFrom(m, n) =>
        PresenceIsLastEffect(c, before, Slot(n, a.field));
        DropPresence(h, m, NESTED, a);
        DropPresence(h, m, NESTED, Slot(n, a.field));
        MergePresence(c, DropUpTo(h, m, NESTED), m, n, NESTED, a);
      case Swap(m, n) =>
        PresenceIsLastEffect(c, before, Exchanged(a, m, n));
        SwappedAt(h.ptr, m, n);
      case _ => FieldStepPresence(c, h, step, a);
    }
  }

  // ---------------------------------------------------------------- laws of the accessors

  /** Swap, field by field: each message gets the other's pointer, in every field, and no other
      message, object or content changes. */
  lemma {:induction false} SwapExchanges<T>(c: Class<T>, h: Heap<T>, m: nat, n: nat, a: Slot)
    ensures var g := Do(c, h, Swap(m, n));
            var from := Slot(if a.msg == m then n else if a.msg == n then m else a.msg, a.field);
            && (a in g.ptr <==> from in h.ptr) && (a in g.ptr ==> g.ptr[a] == h.ptr[from])
            && g.caller == h.caller && g.deleted == h.deleted && g.store == h.store && g.next == h.next
  {
    SwappedAt(h.ptr, m, n);
    hide Swapped;
  }

  lemma {:induction false} DropUpToDeletes<T>(h: Heap<T>, m: nat, k: nat, a: Slot)
    requires k <= NESTED
    ensures var g := DropUpTo(h, m, k);
            && (a in g.ptr <==> a in h.ptr && !(a.msg == m && a.field < k))
            && (a in g.ptr ==> g.ptr[a] == h.ptr[a])
            && (a in h.ptr && a !in g.ptr ==> h.ptr[a] in g.deleted && h.ptr[a] !in g.store)
            && g.caller == h.caller && g.next == h.next
  {
    if k > 0 {
      DropUpToDeletes(h, m, k - 1, a);
      DropUpToDeletes(h, m, k - 1, Slot(m, k - 1));
    }
  }

  /** Clear nulls every nested field of the message, deletes what was there, and touches no other. */
  lemma {:induction false} ClearDeletes<T>(c: Class<T>, h: Heap<T>, m: nat, a: Slot)
    ensures var g := Do(c, h, Clear(m));
            && (a.msg == m ==> a !in g.ptr && (a in h.ptr ==> h.ptr[a] in g.deleted && h.ptr[a] !in g.store))
            && (a.msg != m ==> (a in g.ptr <==> a in h.ptr) && (a in g.ptr ==> g.ptr[a] == h.ptr[a]))
            && g.caller == h.caller
  {
    DropUpToDeletes(h, m, NESTED, a);
  }

  /** MergeFrom, field by field: where the source has an object its value is merged, second, into the
      target's, which is allocated when missing; everything else stays. */
  lemma {:induction false} MergeIsFieldwise<T(!new)>(c: Class<T>, h: Heap<T>, m: nat, n: nat, a: Slot)
    requires Owned(h)
    ensures var v, w := Contents(c, h), Contents(c, Do(c, h, MergeFrom(m, n)));
            var from := Slot(n, a.field);
            && (a.msg != m || from !in v ==> (a in w <==> a in v) && (a in w ==> w[a] == v[a]))
            && (a.msg == m && from in v ==>
                  a in w && w[a] == c.merge(if a in v then v[a] else c.initial, v[from]))
  {
    StepMeans(c, h, MergeFrom(m, n));
    MergedAt(c, Contents(c, h), m, n, a);
    hide Do, Contents, Merged, Owned;
  }

  lemma {:induction false} MergedAt<T>(c: Class<T>, v: map<Slot, T>, m: nat, n: nat, a: Slot)
    ensures var w := Merged(c, v, m, n, NESTED);
            var from := Slot(n, a.field);
            && (a.msg != m || from !in v ==> (a in w <==> a in v) && (a in w ==> w[a] == v[a]))
            && (a.msg == m && from in v ==>
                  a in w && w[a] == c.merge(if a in v then v[a] else c.initial, v[from]))
  {
  }

  /** The accessors of one field; `b` is any field, and those other than `a` never change. */
  lemma {:induction false} AccessorLaws<T>(c: Class<T>, h: Heap<T>, a: Slot, q: Id, b: Slot)
    ensures var g := Do(c, h, Mutable(a));
            && (a in h.ptr ==> g == h)
            && (a !in h.ptr ==> a in g.ptr && g.ptr[a] == h.next && g.store == h.store[h.next := c.initial])
            && (a != b ==> (b in g.ptr <==> b in h.ptr) && (b in g.ptr ==> g.ptr[b] == h.ptr[b]))
    ensures var g := Do(c, h, Release(a));
            && a !in g.ptr && g.store == h.store && g.deleted == h.deleted
            && (a in h.ptr ==> g.caller == h.caller + {h.ptr[a]})
            && (a != b ==> (b in g.ptr <==> b in h.ptr) && (b in g.ptr ==> g.ptr[b] == h.ptr[b]))
    ensures var g := Do(c, h, SetAllocated(a, Some(q)));
            && a in g.ptr && g.ptr[a] == q && g.caller == h.caller - {q}
            && (a in h.ptr ==> g.deleted == h.deleted + multiset{h.ptr[a]} && h.ptr[a] !in g.store)
            && (a != b ==> (b in g.ptr <==> b in h.ptr) && (b in g.ptr ==> g.ptr[b] == h.ptr[b]))
    ensures var g := Do(c, h, ClearField(a));
            && g == Do(c, h, SetAllocated(a, None)) && a !in g.ptr && g.caller == h.caller
            && (a in h.ptr ==> g.deleted == h.deleted + multiset{h.ptr[a]} && h.ptr[a] !in g.store)
            && (a != b ==> (b in g.ptr <==> b in h.ptr) && (b in g.ptr ==> g.ptr[b] == h.ptr[b]))
  {
  }

  /** A write through a kept pointer to a live object is seen in no message exactly when the program
      owns the object: before it is given to a message, and after it was released. */
  lemma {:induction false} WriteIsUnseenExactly<T(!new)>(c: Class<T>, h: Heap<T>, p: Id, t: T)
    requires Owned(h) && p in h.store && h.store[p] != t
    ensures Contents(c, Do(c, h, WriteObject(p, t))) == Contents(c, h) <==> p in h.caller
  {
    StepMeans(c, h, WriteObject(p, t));
    if Pointed(h, p) {
      var a := Home(h, p).value;
      assert Contents(c, h)[a] == h.store[p];
    }
  }

  /** release_* and then set_allocated_* of what it returned put everything back. */
  lemma {:induction false} ReleaseThenGiveBack<T(!new)>(c: Class<T>, h: Heap<T>, a: Slot)
    requires Owned(h) && a in h.ptr
    ensures Do(c, Do(c, h, Release(a)), SetAllocated(a, Some(h.ptr[a]))) == h
  {
  }

  /** CopyFrom copies deeply: the target then holds the source's values in objects of its own, and
      no other message changes, provided merging into a new object copies. */
  lemma {:induction false} CopyIsDeep<T(!new)>(c: Class<T>, h: Heap<T>, m: nat, n: nat, a: Slot)
    requires Owned(h) && m != n && forall t :: c.merge(c.initial, t) == t
    ensures var g := Do(c, h, CopyFrom(m, n));
            var v, w := Contents(c, h), Contents(c, g);
            && (a.msg != m ==> (a in w <==> a in v) && (a in w ==> w[a] == v[a]))
            && (a.msg == m ==> (a in w <==> Slot(n, a.field) in v) && (a in w ==> w[a] == v[Slot(n, a.field)]))
            && forall b, d :: b in g.ptr && d in g.ptr && b != d ==> g.ptr[b] != g.ptr[d]
  {
    hide Owned, Do, Contents, Merged, Cleared;
    StepMeans(c, h, CopyFrom(m, n));
    StepKeepsOwned(c, h, CopyFrom(m, n));
    OwnedIsUnshared(Do(c, h, CopyFrom(m, n)));
    CopiedValue(c, Contents(c, h), m, n, a);
  }

  lemma {:induction false} CopiedValue<T(!new)>(c: Class<T>, v: map<Slot, T>, m: nat, n: nat, a: Slot)
    requires m != n && forall t :: c.merge(c.initial, t) == t
    ensures var w := Merged(c, Cleared(v, m, NESTED), m, n, NESTED);
            && (a.msg != m ==> (a in w <==> a in v) && (a in w ==> w[a] == v[a]))
            && (a.msg == m ==> (a in w <==> Slot(n, a.field) in v) && (a in w ==> w[a] == v[Slot(n, a.field)]))
  {
  }
}
