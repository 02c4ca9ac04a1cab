/**
 Reference counting pointers.  Each handle keeps a pointer and the address of a counter that it shares
 with its copies; the counter alone decides who deletes the pointee and who frees the counter.  The
 counter-free account of the same operations is a map from live handles to pointees: a pointee goes
 exactly when the last handle to it does.
 */
module RefCount {

  type Handle = nat
  type Address = nat

  const NULL: Address := 0

  ghost function Holders<T>(m: map<nat, T>, t: T): set<nat> {
    set h | h in m && m[h] == t
  }

  lemma HoldersAfterSet<T>(m: map<nat, T>, h: nat, v: T, t: T)
    ensures Holders(m[h := v], t) == if v == t then Holders(m, t) + {h} else Holders(m, t) - {h}
  {
  }

  lemma SizeAfterSet<T>(m: map<nat, T>, h: nat, v: T, t: T)
    ensures |Holders(m[h := v], t)|
            == |Holders(m, t)| - (if h in m && m[h] == t then 1 else 0) + (if v == t then 1 else 0)
  {
    HoldersAfterSet(m, h, v, t);
    assert h in Holders(m, t) <==> h in m && m[h] == t;
    if h in Holders(m, t) {
      assert Holders(m, t) + {h} == Holders(m, t);
    } else {
      assert Holders(m, t) - {h} == Holders(m, t);
    }
  }

  lemma SizeAfterDrop<T>(m: map<nat, T>, h: nat, t: T)
    ensures |Holders(m - {h}, t)| == |Holders(m, t)| - (if h in m && m[h] == t then 1 else 0)
  {
    HoldersAfterDrop(m, h, t);
    assert h in Holders(m, t) <==> h in m && m[h] == t;
    if h !in Holders(m, t) {
      assert Holders(m, t) - {h} == Holders(m, t);
    }
  }

  lemma HoldersAfterDrop<T>(m: map<nat, T>, h: nat, t: T)
    ensures Holders(m - {h}, t) == Holders(m, t) - {h}
  {
  }

  // The account without counters.

  datatype Op =
    | Create(h: Handle, p: Address)
    | CopyOf(h: Handle, g: Handle)
    | AssignTo(h: Handle, g: Handle)
    | Destroy(h: Handle)

  datatype Account = Account(ptrs: map<Handle, Address>, deleted: seq<Address>)

  /** Letting go of a pointee deletes it when no handle to it is left. */
  ghost function LetGo(ptrs: map<Handle, Address>, deleted: seq<Address>, p: Address): seq<Address> {
    if p != NULL && Holders(ptrs, p) == {} then deleted + [p] else deleted
  }

  ghost predicate Enabled(op: Op, v: Account) {
    match op
    case Create(h, p) => h !in v.ptrs && (p == NULL || Holders(v.ptrs, p) == {})
    case CopyOf(h, g) => h !in v.ptrs && g in v.ptrs
    case AssignTo(h, g) => h in v.ptrs && g in v.ptrs
    case Destroy(h) => h in v.ptrs
  }

  ghost function Apply(op: Op, v: Account): Account
    requires Enabled(op, v)
  {
    match op
    case Create(h, p) => v.(ptrs := v.ptrs[h := p])
    case CopyOf(h, g) => v.(ptrs := v.ptrs[h := v.ptrs[g]])
    case AssignTo(h, g) =>
      var ptrs := v.ptrs[h := v.ptrs[g]];
      Account(ptrs, LetGo(ptrs, v.deleted, v.ptrs[h]))
    case Destroy(h) =>
      var ptrs := v.ptrs - {h};
      Account(ptrs, LetGo(ptrs, v.deleted, v.ptrs[h]))
  }

  ghost predicate Possible(ops: seq<Op>, v: Account) {
    ops == [] || (Enabled(ops[0], v) && Possible(ops[1..], Apply(ops[0], v)))
  }

  ghost function ApplyAll(ops: seq<Op>, v: Account): Account
    requires Possible(ops, v)
  {
    if ops == [] then v else ApplyAll(ops[1..], Apply(ops[0], v))
  }

  /** What the operations hand over: the pointees that came from `new`. */
  function Created(ops: seq<Op>): seq<Address> {
    if ops == [] then []
    else (if ops[0].Create? && ops[0].p != NULL then [ops[0].p] else []) + Created(ops[1..])
  }

  /** The pointees that some live handle refers to. */
  ghost function Owned(ptrs: map<Handle, Address>): set<Address> {
    set h | h in ptrs && ptrs[h] != NULL :: ptrs[h]
  }

  lemma OwnedHolders(ptrs: map<Handle, Address>, p: Address)
    requires p != NULL
    ensures p in Owned(ptrs) <==> Holders(ptrs, p) != {}
  {
    if p in Owned(ptrs) {
      var h :| h in ptrs && ptrs[h] == p;
      assert h in Holders(ptrs, p);
    }
    if Holders(ptrs, p) != {} {
      var h :| h in Holders(ptrs, p);
    }
  }

  /** One operation keeps the balance: every pointee that came in is owned or deleted, never both. */
  lemma ApplyBalances(op: Op, v: Account)
    requires Enabled(op, v)
    ensures var w := Apply(op, v);
            multiset(w.deleted) + multiset(Owned(w.ptrs))
            == multiset(v.deleted) + multiset(Owned(v.ptrs)) + multiset(Created([op]))
  {
    var w := Apply(op, v);
    assert Created([op]) == (if op.Create? && op.p != NULL then [op.p] else []);
    forall p: Address
      ensures (multiset(w.deleted) + multiset(Owned(w.ptrs)))[p]
              == (multiset(v.deleted) + multiset(Owned(v.ptrs)) + multiset(Created([op])))[p]
    {
      BalanceOf(op, v, p);
    }
  }

  /** The last occurrence of p in the account: in hand before or after, or let go. */
  lemma LetGoBalances(ptrs: map<Handle, Address>, deleted: seq<Address>, p: Address, q: Address)
    requires p != NULL
    ensures multiset(LetGo(ptrs, deleted, q))[p]
         == multiset(deleted)[p] + (if p == q && p !in Owned(ptrs) then 1 else 0)
  {
    OwnedHolders(ptrs, p);
    assert multiset(deleted + [q]) == multiset(deleted) + multiset{q};
  }

  lemma BalanceOf(op: Op, v: Account, p: Address)
    requires Enabled(op, v)
    ensures var w := Apply(op, v);
            multiset(w.deleted)[p] + multiset(Owned(w.ptrs))[p]
            == multiset(v.deleted)[p] + multiset(Owned(v.ptrs))[p] + multiset(Created([op]))[p]
  {
    var w := Apply(op, v);
    assert Created([op]) == (if op.Create? && op.p != NULL then [op.p] else []);
    assert NULL !in Owned(v.ptrs) && NULL !in Owned(w.ptrs);
    if p == NULL {
      assert NULL !in multiset(Created([op]));
      if (op.AssignTo? || op.Destroy?) && v.ptrs[op.h] != NULL {
        assert multiset(v.deleted + [v.ptrs[op.h]])[p] == multiset(v.deleted)[p];
      }
    } else {
      match op
      case Create(h, q) =>
        OwnedAfterSet(v.ptrs, h, q, p);
        OwnedHolders(v.ptrs, p);
      case CopyOf(h, g) => OwnedAfterSet(v.ptrs, h, v.ptrs[g], p);
      case AssignTo(h, g) =>
        OwnedAfterSet(v.ptrs, h, v.ptrs[g], p);
        LetGoBalances(w.ptrs, v.deleted, p, v.ptrs[h]);
      case Destroy(h) =>
        assert forall k :: k in v.ptrs && k != h <==> k in w.ptrs;
        assert p in Owned(v.ptrs) <==> p in Owned(w.ptrs) || v.ptrs[h] == p by {
          if p in Owned(v.ptrs) && v.ptrs[h] != p {
            var k :| k in v.ptrs && v.ptrs[k] == p;
            assert k in w.ptrs;
          }
        }
        LetGoBalances(w.ptrs, v.deleted, p, v.ptrs[h]);
    }
  }

  /** Nobody but the overwritten handle stops owning, and it may own something new. */
  lemma OwnedAfterSet(ptrs: map<Handle, Address>, h: Handle, q: Address, p: Address)
    requires p != NULL
    ensures p in Owned(ptrs[h := q]) ==> p in Owned(ptrs) || p == q
    ensures p in Owned(ptrs) ==> p in Owned(ptrs[h := q]) || (h in ptrs && ptrs[h] == p)
    ensures p == q ==> p in Owned(ptrs[h := q])
  {
    var after := ptrs[h := q];
    if p == q {
      assert after[h] == p;
    }
    if p in Owned(ptrs) && !(h in ptrs && ptrs[h] == p) {
      var k :| k in ptrs && ptrs[k] == p;
      assert k in after && after[k] == p;
    }
  }

  /**
   Over any run from nothing: what was created is exactly what was deleted together with what live
   handles still own.  When no address is handed over twice, nothing is deleted twice, and nothing
   that a handle refers to has been deleted.
   */
  lemma {:induction false} DeletedExactlyOnce(ops: seq<Op>, v: Account)
    requires Possible(ops, v)
    ensures var w := ApplyAll(ops, v);
            multiset(w.deleted) + multiset(Owned(w.ptrs))
            == multiset(v.deleted) + multiset(Owned(v.ptrs)) + multiset(Created(ops))
  {
    if ops == [] {
    } else {
      ApplyBalances(ops[0], v);
      DeletedExactlyOnce(ops[1..], Apply(ops[0], v));
      assert Created([ops[0]]) == (if ops[0].Create? && ops[0].p != NULL then [ops[0].p] else []);
      assert multiset(Created(ops)) == multiset(Created([ops[0]])) + multiset(Created(ops[1..]));
    }
  }

  /** From nothing: every pointee handed over once is owned by a live handle or deleted once, not both. */
  lemma NeverTwice(ops: seq<Op>, p: Address)
    requires Possible(ops, Account(map[], [])) && multiset(Created(ops))[p] == 1
    ensures var w := ApplyAll(ops, Account(map[], []));
            multiset(w.deleted)[p] == if p in Owned(w.ptrs) then 0 else 1
  {
    var v := Account(map[], []);
    assert Owned(v.ptrs) == {} && multiset(v.deleted) == multiset{};
    DeletedExactlyOnce(ops, v);
    var w := ApplyAll(ops, v);
    assert (multiset(w.deleted) + multiset(Owned(w.ptrs)))[p] == multiset(Created(ops))[p];
  }

  // The counters.

  /** A counter counts its handles, and there is no counter without one. */
  ghost predicate Tallied(cells: map<Handle, Address>, counters: map<Address, int>) {
    && (forall h :: h in cells ==> cells[h] in counters)
    && (forall c :: c in counters ==> counters[c] == |Holders(cells, c)| && counters[c] > 0)
  }

  /** Handles share a counter exactly when they are copies of one another. */
  ghost predicate Agree(ptrs: map<Handle, Address>, cells: map<Handle, Address>) {
    && ptrs.Keys == cells.Keys
    && (forall h, k :: h in cells && k in cells && cells[h] == cells[k] ==> ptrs[h] == ptrs[k])
    && (forall h, k :: h in cells && k in cells && ptrs[h] == ptrs[k] != NULL ==> cells[h] == cells[k])
  }

  ghost predicate Counted(ptrs: map<Handle, Address>, cells: map<Handle, Address>, counters: map<Address, int>) {
    Tallied(cells, counters) && Agree(ptrs, cells)
  }

  /** The counter reads one exactly when this is the last handle to the pointee. */
  lemma OneMeansLast(ptrs: map<Handle, Address>, cells: map<Handle, Address>, counters: map<Address, int>, h: Handle)
    requires Counted(ptrs, cells, counters) && h in ptrs
    ensures counters[cells[h]] == 1 <==> Holders(cells, cells[h]) == {h}
    ensures ptrs[h] != NULL ==> Holders(ptrs, ptrs[h]) == Holders(cells, cells[h])
  {
    assert h in Holders(cells, cells[h]);
    if counters[cells[h]] == 1 {
      Singleton(Holders(cells, cells[h]));
    }
  }

  lemma Singleton(s: set<nat>)
    requires |s| == 1
    ensures exists x :: s == {x}
  {
    var x :| x in s;
    assert s == {x} + (s - {x});
    assert |s - {x}| == 0;
  }

  class Memory {
    var ptrs: map<Handle, Address>      // __ptr of every live handle
    var cells: map<Handle, Address>     // __cnt.__ref of every live handle
    var counters: map<Address, int>     // the counters on the heap
    var deleted: seq<Address>

    ghost predicate Valid()
      reads this
    {
      Counted(ptrs, cells, counters)
    }

    ghost function View(): Account
      reads this
    {
      Account(ptrs, deleted)
    }

    constructor ()
      ensures Valid() && View() == Account(map[], [])
    {
      ptrs, cells, counters, deleted := map[], map[], map[], [];
    }

    predicate One(h: Handle)
      requires h in cells && cells[h] in counters
      reads this
    {
      counters[cells[h]] == 1
    }

    method DeletePointee(p: Address)
      modifies this`deleted
      ensures deleted == if p == NULL then old(deleted) else old(deleted) + [p]
    {
      if p != NULL {
        deleted := deleted + [p];
      }
    }

    method Ref(c: Address)
      requires c in counters
      modifies this`counters
      ensures counters == old(counters)[c := old(counters)[c] + 1]
    {
      counters := counters[c := counters[c] + 1];
    }

    /** The counter goes with its last holder; it is never below zero and never touched afterwards. */
    method Unref(c: Address)
      requires c in counters && counters[c] > 0
      modifies this`counters
      ensures counters == Lowered(old(counters), c)
    {
      counters := counters[c := counters[c] - 1];
      if counters[c] == 0 {
        counters := counters - {c};
      }
    }

    /** RefPtr(ptr): a new counter; `cell` is the address that the allocator chose for it. */
    method New(h: Handle, p: Address, cell: Address)
      requires Valid() && Enabled(Create(h, p), View()) && cell !in counters
      modifies this
      ensures Valid() && View() == Apply(Create(h, p), old(View()))
      ensures ptrs == old(ptrs)[h := p]
    {
      CreateCounted(ptrs, cells, counters, h, p, cell);
      ptrs := ptrs[h := p];
      cells := cells[h := cell];
      counters := counters[cell := 1];
    }

    /** The implicit copy constructor. */
    method Copy(h: Handle, g: Handle)
      requires Valid() && Enabled(CopyOf(h, g), View())
      modifies this
      ensures Valid() && View() == Apply(CopyOf(h, g), old(View()))
      ensures ptrs == old(ptrs)[h := old(ptrs)[g]]
    {
      CopyCounted(ptrs, cells, counters, h, g);
      ptrs := ptrs[h := ptrs[g]];
      cells := cells[h := cells[g]];
      Ref(cells[h]);
    }

    /** RefCnt::operator=: the new counter goes up before the old one goes down. */
    method AssignCount(h: Handle, g: Handle)
      requires h in cells && g in cells && cells[h] in counters && cells[g] in counters
      requires counters[cells[h]] > 0 && counters[cells[g]] > 0
      modifies this`cells, this`counters
      ensures counters == Moved(old(counters), old(cells)[g], old(cells)[h])
      ensures cells == old(cells)[h := old(cells)[g]]
    {
      Ref(cells[g]);
      Unref(cells[h]);
      cells := cells[h := cells[g]];
    }

    /** RefPtr::operator= followed, for the member, by RefCnt::operator=. */
    method Assign(h: Handle, g: Handle)
      requires Valid() && Enabled(AssignTo(h, g), View())
      modifies this
      ensures Valid() && View() == Apply(AssignTo(h, g), old(View()))
      ensures ptrs == old(ptrs)[h := old(ptrs)[g]]
    {
      AssignCounted(ptrs, cells, counters, h, g);
      AssignLetsGo(ptrs, cells, counters, deleted, h, g);
      assert counters[cells[h]] > 0 && counters[cells[g]] > 0;
      hide Counted, Apply, Enabled, Moved;
      if h != g {
        if One(h) {
          DeletePointee(ptrs[h]);
        }
        ptrs := ptrs[h := ptrs[g]];
        AssignCount(h, g);
      } else {
        assert ptrs[h := ptrs[g]] == ptrs;
      }
    }

    /** ~RefPtr followed, for the member, by ~RefCnt. */
    method Drop(h: Handle)
      requires Valid() && Enabled(Destroy(h), View())
      modifies this
      ensures Valid() && View() == Apply(Destroy(h), old(View()))
      ensures ptrs == old(ptrs) - {h}
    {
      DropCounted(ptrs, cells, counters, h);
      DropLetsGo(ptrs, cells, counters, deleted, h);
      assert counters[cells[h]] > 0;
      hide Counted, Apply, Enabled, Lowered;
      if One(h) {
        DeletePointee(ptrs[h]);
      }
      Unref(cells[h]);
      ptrs, cells := ptrs - {h}, cells - {h};
    }

    /** Any sequence of operations behaves as the account without counters says. */
    method Run(ops: seq<Op>)
      requires Valid() && Possible(ops, View())
      modifies this
      ensures Valid() && View() == ApplyAll(ops, old(View()))
    {
      var i := 0;
      assert ops[0..] == ops;
      while i < |ops|
        invariant 0 <= i <= |ops| && Valid()
        invariant Possible(ops[i..], View()) && ApplyAll(ops[i..], View()) == ApplyAll(ops, old(View()))
      {
        assert ops[i..][0] == ops[i] && ops[i..][1..] == ops[i + 1..];
        match ops[i] {
          case Create(h, p) =>
            FreshExists(counters.Keys);
            var cell: Address :| cell !in counters;
            New(h, p, cell);
          case CopyOf(h, g) => Copy(h, g);
          case AssignTo(h, g) => Assign(h, g);
          case Destroy(h) => Drop(h);
        }
        i := i + 1;
      }
    }
  }

  lemma {:induction false} FreshExists(s: set<nat>)
    ensures exists a: nat :: a !in s
  {
    var b := Bound(s);
    assert b !in s;
  }

  ghost function Bound(s: set<nat>): (b: nat)
    ensures forall x :: x in s ==> x < b
  {
    if s == {} then 0
    else
      var x :| x in s;
      var b := Bound(s - {x});
      assert forall y :: y in s ==> y == x || y in s - {x};
      if x < b then b else x + 1
  }

  lemma CreateCounted(ptrs: map<Handle, Address>, cells: map<Handle, Address>, counters: map<Address, int>,
                      h: Handle, p: Address, cell: Address)
    requires Counted(ptrs, cells, counters) && h !in ptrs && cell !in counters
    requires p == NULL || Holders(ptrs, p) == {}
    ensures Counted(ptrs[h := p], cells[h := cell], counters[cell := 1])
  {
    assert Holders(cells, cell) == {};
    assert Agree(ptrs[h := p], cells[h := cell]) by {
      assert forall k :: k in ptrs && ptrs[k] == p ==> k in Holders(ptrs, p);
    }
    hide Holders, Agree;
    forall c {
      SizeAfterSet(cells, h, cell, c);
    }
  }

  lemma CopyCounted(ptrs: map<Handle, Address>, cells: map<Handle, Address>, counters: map<Address, int>,
                    h: Handle, g: Handle)
    requires Counted(ptrs, cells, counters) && h !in ptrs && g in ptrs
    ensures Counted(ptrs[h := ptrs[g]], cells[h := cells[g]], counters[cells[g] := counters[cells[g]] + 1])
  {
    hide Holders;
    assert Agree(ptrs[h := ptrs[g]], cells[h := cells[g]]);
    forall c {
      SizeAfterSet(cells, h, cells[g], c);
    }
  }

  /** The counters after Unref(d). */
  function Lowered(counters: map<Address, int>, d: Address): map<Address, int>
    requires d in counters
  {
    if counters[d] == 1 then counters - {d} else counters[d := counters[d] - 1]
  }

  /** The counters after Ref(c) and Unref(d). */
  function Moved(counters: map<Address, int>, c: Address, d: Address): map<Address, int>
    requires c in counters && d in counters
  {
    Lowered(counters[c := counters[c] + 1], d)
  }

  lemma AssignTallied(cells: map<Handle, Address>, counters: map<Address, int>, h: Handle, g: Handle)
    requires Tallied(cells, counters) && h in cells && g in cells && h != g
    ensures Tallied(cells[h := cells[g]], Moved(counters, cells[g], cells[h]))
  {
    var c, d := cells[g], cells[h];
    var cells', counters' := cells[h := c], Moved(counters, c, d);
    SizeAfterSet(cells, h, c, d);
    assert c in counters' by {
      assert g in Holders(cells', c);
      SizeAfterSet(cells, h, c, c);
    }
    forall k | k in cells'
      ensures cells'[k] in counters'
    {
      assert k in Holders(cells', cells'[k]);
    }
    forall e | e in counters'
      ensures counters'[e] == |Holders(cells', e)| && counters'[e] > 0
    {
      SizeAfterSet(cells, h, c, e);
    }
  }

  lemma AssignCounted(ptrs: map<Handle, Address>, cells: map<Handle, Address>, counters: map<Address, int>,
                      h: Handle, g: Handle)
    requires Counted(ptrs, cells, counters) && h in ptrs && g in ptrs
    ensures h != g ==> Counted(ptrs[h := ptrs[g]], cells[h := cells[g]], Moved(counters, cells[g], cells[h]))
  {
    if h != g {
      AssignTallied(cells, counters, h, g);
      hide Tallied;
      assert Agree(ptrs[h := ptrs[g]], cells[h := cells[g]]);
    }
  }

  lemma DropTallied(cells: map<Handle, Address>, counters: map<Address, int>, h: Handle)
    requires Tallied(cells, counters) && h in cells
    ensures Tallied(cells - {h}, Lowered(counters, cells[h]))
  {
    var d := cells[h];
    SizeAfterDrop(cells, h, d);
    forall k | k in cells - {h}
      ensures cells[k] in Lowered(counters, d)
    {
      assert k in Holders(cells - {h}, cells[k]);
    }
    forall e | e in Lowered(counters, d)
      ensures Lowered(counters, d)[e] == |Holders(cells - {h}, e)| && Lowered(counters, d)[e] > 0
    {
      SizeAfterDrop(cells, h, e);
    }
  }

  lemma DropCounted(ptrs: map<Handle, Address>, cells: map<Handle, Address>, counters: map<Address, int>, h: Handle)
    requires Counted(ptrs, cells, counters) && h in ptrs
    ensures Counted(ptrs - {h}, cells - {h}, Lowered(counters, cells[h]))
  {
    DropTallied(cells, counters, h);
    hide Tallied;
    assert Agree(ptrs - {h}, cells - {h});
  }

  /** Assigning over the last handle, and nothing else, lets the old pointee go. */
  lemma AssignLetsGo(ptrs: map<Handle, Address>, cells: map<Handle, Address>, counters: map<Address, int>,
                     deleted: seq<Address>, h: Handle, g: Handle)
    requires Counted(ptrs, cells, counters) && h in ptrs && g in ptrs
    ensures Apply(AssignTo(h, g), Account(ptrs, deleted))
         == Account(ptrs[h := ptrs[g]],
                    if h != g && counters[cells[h]] == 1 && ptrs[h] != NULL then deleted + [ptrs[h]] else deleted)
  {
    OneMeansLast(ptrs, cells, counters, h);
    HoldersAfterSet(ptrs, h, ptrs[g], ptrs[h]);
    assert h in Holders(ptrs, ptrs[h]) && g in Holders(ptrs, ptrs[g]);
  }

  lemma DropLetsGo(ptrs: map<Handle, Address>, cells: map<Handle, Address>, counters: map<Address, int>,
                   deleted: seq<Address>, h: Handle)
    requires Counted(ptrs, cells, counters) && h in ptrs
    ensures Apply(Destroy(h), Account(ptrs, deleted))
         == Account(ptrs - {h},
                    if counters[cells[h]] == 1 && ptrs[h] != NULL then deleted + [ptrs[h]] else deleted)
  {
    OneMeansLast(ptrs, cells, counters, h);
    HoldersAfterDrop(ptrs, h, ptrs[h]);
    assert h in Holders(ptrs, ptrs[h]);
  }
}
