/**
 Message wrappers over the reference counts of libdbus.  A wrapper holds a counted pointer to a Private,
 alone or shared with other wrappers, and the Private holds the message; every wrapper, shared or not,
 accounts for one reference of its message.
 */
module Messages {
  import opened RefCount

  /** The message of every wrapper. */
  function WrappedBy(ptrs: map<Handle, Address>, msgOf: map<Address, Address>): map<Handle, Address> {
    map w | w in ptrs && ptrs[w] in msgOf :: msgOf[ptrs[w]]
  }

  /** Every wrapper has a Private. */
  predicate Complete(ptrs: map<Handle, Address>, msgOf: map<Address, Address>) {
    forall w :: w in ptrs ==> ptrs[w] in msgOf && ptrs[w] != NULL
  }

  lemma WrapperSet(ptrs: map<Handle, Address>, msgOf: map<Address, Address>, w: Handle, p: Address)
    requires Complete(ptrs, msgOf) && p in msgOf && p != NULL
    ensures Complete(ptrs[w := p], msgOf)
    ensures WrappedBy(ptrs[w := p], msgOf) == WrappedBy(ptrs, msgOf)[w := msgOf[p]]
  {
  }

  lemma WrapperDropped(ptrs: map<Handle, Address>, msgOf: map<Address, Address>, w: Handle)
    requires Complete(ptrs, msgOf)
    ensures Complete(ptrs - {w}, msgOf)
    ensures WrappedBy(ptrs - {w}, msgOf) == WrappedBy(ptrs, msgOf) - {w}
  {
  }

  lemma PrivateMade(ptrs: map<Handle, Address>, msgOf: map<Address, Address>, p: Address, m: Address)
    requires Complete(ptrs, msgOf) && Holders(ptrs, p) == {}
    ensures Complete(ptrs, msgOf[p := m])
    ensures WrappedBy(ptrs, msgOf[p := m]) == WrappedBy(ptrs, msgOf)
  {
    forall w | w in ptrs
      ensures ptrs[w] != p
    {
      assert w in Holders(ptrs, ptrs[w]);
    }
  }

  /** A message is alive while its count is positive, and the count covers its wrappers. */
  ghost predicate Backed(wrapped: map<Handle, Address>, count: map<Address, int>) {
    && (forall w :: w in wrapped ==> wrapped[w] in count)
    && (forall m :: m in count ==> count[m] > 0 && Spare(wrapped, count, m) >= 0)
  }

  /** The references of a message that no wrapper accounts for. */
  ghost function Spare(wrapped: map<Handle, Address>, count: map<Address, int>, m: Address): int
    requires m in count
  {
    count[m] - |Holders(wrapped, m)|
  }

  function Raised(count: map<Address, int>, m: Address): map<Address, int>
    requires m in count
  {
    count[m := count[m] + 1]
  }

  lemma Added(wrapped: map<Handle, Address>, count: map<Address, int>, w: Handle, m: Address)
    requires Backed(wrapped, count) && w !in wrapped && m in count
    ensures Backed(wrapped[w := m], Raised(count, m))
    ensures forall k :: k in count ==> Spare(wrapped[w := m], Raised(count, m), k) == Spare(wrapped, count, k)
  {
    hide Holders;
    forall k | k in count
      ensures Spare(wrapped[w := m], Raised(count, m), k) == Spare(wrapped, count, k)
    {
      SizeAfterSet(wrapped, w, m, k);
    }
  }

  lemma TakenOver(wrapped: map<Handle, Address>, count: map<Address, int>, w: Handle, m: Address)
    requires Backed(wrapped, count) && w !in wrapped && m in count && Spare(wrapped, count, m) > 0
    ensures Backed(wrapped[w := m], count)
    ensures forall k :: k in count ==>
              Spare(wrapped[w := m], count, k) == Spare(wrapped, count, k) - (if k == m then 1 else 0)
  {
    hide Holders;
    forall k | k in count
      ensures Spare(wrapped[w := m], count, k) == Spare(wrapped, count, k) - (if k == m then 1 else 0)
    {
      SizeAfterSet(wrapped, w, m, k);
    }
  }

  /** A message that loses its last wrapper and has no spare reference is freed; no other is. */
  lemma Removed(wrapped: map<Handle, Address>, count: map<Address, int>, w: Handle)
    requires Backed(wrapped, count) && w in wrapped
    ensures var left := Lowered(count, wrapped[w]);
            && Backed(wrapped - {w}, left)
            && (forall k :: k in left ==> k in count && Spare(wrapped - {w}, left, k) == Spare(wrapped, count, k))
            && (forall k :: k in count && k !in left ==>
                  k == wrapped[w] && Holders(wrapped, k) == {w} && Spare(wrapped, count, k) == 0)
  {
    var m, left := wrapped[w], Lowered(count, wrapped[w]);
    assert w in Holders(wrapped, m);
    forall k | k in left
      ensures Spare(wrapped - {w}, left, k) == Spare(wrapped, count, k)
    {
      SizeAfterDrop(wrapped, w, k);
    }
    if count[m] == 1 {
      Singleton(Holders(wrapped, m));
    }
    forall v | v in wrapped - {w}
      ensures wrapped[v] in left
    {
      assert v in Holders(wrapped, wrapped[v]);
    }
  }

  /** Moving a wrapper lets its old message go first; the other wrapper keeps the new one alive. */
  lemma Rewrapped(wrapped: map<Handle, Address>, count: map<Address, int>, w: Handle, v: Handle)
    requires Backed(wrapped, count) && w in wrapped && v in wrapped && v != w
    ensures var left := Lowered(count, wrapped[w]);
            && wrapped[v] in left
            && Backed(wrapped[w := wrapped[v]], Raised(left, wrapped[v]))
            && (forall k :: k in left ==>
                  k in count
                  && Spare(wrapped[w := wrapped[v]], Raised(left, wrapped[v]), k) == Spare(wrapped, count, k))
  {
    var left := Lowered(count, wrapped[w]);
    Removed(wrapped, count, w);
    assert v in wrapped - {w};
    Added(wrapped - {w}, left, w, wrapped[v]);
    assert (wrapped - {w})[w := wrapped[v]] == wrapped[w := wrapped[v]];
  }

  /** The copy of a wrapper, with the Private of the other or with a new one for the same message. */
  lemma Copying(ptrs: map<Handle, Address>, msgOf: map<Address, Address>, count: map<Address, int>,
                w: Handle, v: Handle, p: Address)
    requires Complete(ptrs, msgOf) && Backed(WrappedBy(ptrs, msgOf), count)
    requires v in ptrs && w !in ptrs && p != NULL && Holders(ptrs, p) == {}
    ensures var before, m := WrappedBy(ptrs, msgOf), msgOf[ptrs[v]];
            && v in before && before[v] == m && m in count
            && Backed(before[w := m], Raised(count, m))
            && Complete(ptrs[w := ptrs[v]], msgOf) && WrappedBy(ptrs[w := ptrs[v]], msgOf) == before[w := m]
            && Complete(ptrs[w := p], msgOf[p := m]) && WrappedBy(ptrs[w := p], msgOf[p := m]) == before[w := m]
  {
    var before, m := WrappedBy(ptrs, msgOf), msgOf[ptrs[v]];
    assert before[v] == m && m in count;
    hide Backed, Holders, Raised, WrappedBy;
    Added(before, count, w, m);
    PrivateMade(ptrs, msgOf, p, m);
    WrapperSet(ptrs, msgOf, w, ptrs[v]);
    WrapperSet(ptrs, msgOf[p := m], w, p);
  }

  /** A wrapper moved to the Private of another. */
  lemma Moving(ptrs: map<Handle, Address>, msgOf: map<Address, Address>, count: map<Address, int>, w: Handle, v: Handle)
    requires Complete(ptrs, msgOf) && Backed(WrappedBy(ptrs, msgOf), count) && w in ptrs && v in ptrs && w != v
    ensures var before, left, m := WrappedBy(ptrs, msgOf), msgOf[ptrs[w]], msgOf[ptrs[v]];
            && w in before && before[w] == left && left in count && v in before && before[v] == m
            && m in Lowered(count, left) && Backed(before[w := m], Raised(Lowered(count, left), m))
            && Complete(ptrs[w := ptrs[v]], msgOf) && WrappedBy(ptrs[w := ptrs[v]], msgOf) == before[w := m]
  {
    var before := WrappedBy(ptrs, msgOf);
    assert before[w] == msgOf[ptrs[w]] && before[w] in count && before[v] == msgOf[ptrs[v]];
    hide Backed, Holders, Raised, Lowered, WrappedBy;
    Rewrapped(before, count, w, v);
    WrapperSet(ptrs, msgOf, w, ptrs[v]);
  }

  lemma Referenced(wrapped: map<Handle, Address>, count: map<Address, int>, m: Address)
    requires Backed(wrapped, count) && m in count
    ensures Backed(wrapped, Raised(count, m))
    ensures forall k :: k in count ==>
              Spare(wrapped, Raised(count, m), k) == Spare(wrapped, count, k) + (if k == m then 1 else 0)
  {
    hide Holders;
  }

  lemma Released(wrapped: map<Handle, Address>, count: map<Address, int>, m: Address)
    requires Backed(wrapped, count) && m in count && Spare(wrapped, count, m) > 0
    ensures var left := Lowered(count, m);
            && Backed(wrapped, left)
            && (forall k :: k in left ==>
                  k in count && Spare(wrapped, left, k) == Spare(wrapped, count, k) - (if k == m then 1 else 0))
            && (m !in left ==> Spare(wrapped, count, m) == 1 && Holders(wrapped, m) == {})
            && (forall k :: k in count && k != m ==> k in left)
  {
    forall w | w in wrapped
      ensures wrapped[w] in Lowered(count, m)
    {
      assert w in Holders(wrapped, wrapped[w]);
    }
  }

  // ---------- runs ----------

  datatype MessageOp =
    | Receive(m: Address)                        // a message comes into being, with a reference of somebody's
    | Reference(m: Address)                      // somebody else takes a reference
    | Release(m: Address)                        // somebody else gives one back
    | Share(w: Handle, m: Address)               // Message(Private *)
    | TakeOver(w: Handle, m: Address)            // Message(Private *, false)
    | Duplicate(w: Handle, v: Handle, share: bool)  // Message(const Message &, share_private)
    | Reassign(w: Handle, v: Handle)
    | Discard(w: Handle)
    | CopyMessage(w: Handle, m: Address)         // Message::copy, which makes the message m

  datatype Books = Books(wrapped: map<Handle, Address>, count: map<Address, int>)

  ghost predicate Allowed(op: MessageOp, b: Books) {
    match op
    case Receive(m) => m !in b.count
    case Reference(m) => m in b.count
    case Release(m) => m in b.count && Spare(b.wrapped, b.count, m) > 0
    case Share(w, m) => w !in b.wrapped && m in b.count
    case TakeOver(w, m) => w !in b.wrapped && m in b.count && Spare(b.wrapped, b.count, m) > 0
    case Duplicate(w, v, _) => w !in b.wrapped && v in b.wrapped && b.wrapped[v] in b.count
    case Reassign(w, v) =>
      w in b.wrapped && v in b.wrapped && b.wrapped[w] in b.count
      && (w != v ==> b.wrapped[v] in Lowered(b.count, b.wrapped[w]))
    case Discard(w) => w in b.wrapped && b.wrapped[w] in b.count
    case CopyMessage(w, m) => w !in b.wrapped && m !in b.count
  }

  ghost function After(op: MessageOp, b: Books): Books
    requires Allowed(op, b)
  {
    match op
    case Receive(m) => b.(count := b.count[m := 1])
    case Reference(m) => b.(count := Raised(b.count, m))
    case Release(m) => b.(count := Lowered(b.count, m))
    case Share(w, m) => Books(b.wrapped[w := m], Raised(b.count, m))
    case TakeOver(w, m) => b.(wrapped := b.wrapped[w := m])
    case Duplicate(w, v, _) => Books(b.wrapped[w := b.wrapped[v]], Raised(b.count, b.wrapped[v]))
    case Reassign(w, v) =>
      if w == v then b
      else Books(b.wrapped[w := b.wrapped[v]], Raised(Lowered(b.count, b.wrapped[w]), b.wrapped[v]))
    case Discard(w) => Books(b.wrapped - {w}, Lowered(b.count, b.wrapped[w]))
    case CopyMessage(w, m) => Books(b.wrapped[w := m], b.count[m := 2])
  }

  ghost predicate AllAllowed(ops: seq<MessageOp>, b: Books) {
    ops == [] || (Allowed(ops[0], b) && AllAllowed(ops[1..], After(ops[0], b)))
  }

  ghost function AfterAll(ops: seq<MessageOp>, b: Books): Books
    requires AllAllowed(ops, b)
  {
    if ops == [] then b else AfterAll(ops[1..], After(ops[0], b))
  }

  /** What the operations do to the spare references of m. */
  function Ledger(ops: seq<MessageOp>, m: Address): int {
    if ops == [] then 0
    else
      (match ops[0]
       case Reference(k) => if k == m then 1 else 0
       case Release(k) => if k == m then -1 else 0
       case TakeOver(_, k) => if k == m then -1 else 0
       case _ => 0) + Ledger(ops[1..], m)
  }

  predicate Makes(op: MessageOp, m: Address) {
    op == Receive(m) || (op.CopyMessage? && op.m == m)
  }

  /** The spare references of a message; none when it is gone. */
  ghost function Balance(b: Books, m: Address): int {
    if m in b.count then Spare(b.wrapped, b.count, m) else 0
  }

  /** One operation: the counts stay right, and the balance moves by what the ledger says. */
  lemma StepBalances(op: MessageOp, b: Books, m: Address)
    requires Backed(b.wrapped, b.count) && Allowed(op, b) && !Makes(op, m)
    ensures var c := After(op, b); Backed(c.wrapped, c.count)
    ensures Balance(After(op, b), m) == Balance(b, m) + Ledger([op], m)
    ensures m !in b.count ==> m !in After(op, b).count
  {
    assert [op][1..] == [];
    match op
    case Receive(k) => Made(b, k, 1, m);
    case Reference(k) => Referenced(b.wrapped, b.count, k);
    case Release(k) => Released(b.wrapped, b.count, k);
    case Share(w, k) => Added(b.wrapped, b.count, w, k);
    case TakeOver(w, k) => TakenOver(b.wrapped, b.count, w, k);
    case Duplicate(w, v, _) => Added(b.wrapped, b.count, w, b.wrapped[v]);
    case Reassign(w, v) =>
      if w != v {
        Removed(b.wrapped, b.count, w);
        Rewrapped(b.wrapped, b.count, w, v);
      }
    case Discard(w) => Removed(b.wrapped, b.count, w);
    case CopyMessage(w, k) =>
      Made(b, k, 1, m);
      Added(b.wrapped, b.count[k := 1], w, k);
  }

  lemma Made(b: Books, k: Address, n: int, m: Address)
    requires Backed(b.wrapped, b.count) && k !in b.count && n > 0
    ensures Backed(b.wrapped, b.count[k := n])
    ensures m != k && m in b.count ==> Spare(b.wrapped, b.count[k := n], m) == Spare(b.wrapped, b.count, m)
  {
    assert Holders(b.wrapped, k) == {};
  }

  /** Over any run in which m is not made again, its balance moves by what the ledger says and nothing else. */
  lemma {:induction false} RunBalances(ops: seq<MessageOp>, b: Books, m: Address)
    requires Backed(b.wrapped, b.count) && AllAllowed(ops, b)
    requires forall op :: op in ops ==> !Makes(op, m)
    ensures var c := AfterAll(ops, b); Backed(c.wrapped, c.count)
    ensures Balance(AfterAll(ops, b), m) == Balance(b, m) + Ledger(ops, m)
    decreases |ops|
  {
    if ops != [] {
      hide Backed, Allowed, After, Balance, Makes;
      assert [ops[0]][1..] == [];
      assert ops[0] in ops && forall op :: op in ops[1..] ==> op in ops;
      StepBalances(ops[0], b, m);
      RunBalances(ops[1..], After(ops[0], b), m);
    }
  }

  /**
   When a message is still allocated after a run: exactly when a wrapper is left, or more spare references
   than the run has used up.
   */
  lemma AliveIff(ops: seq<MessageOp>, b: Books, m: Address)
    requires Backed(b.wrapped, b.count) && AllAllowed(ops, b) && m in b.count
    requires forall op :: op in ops ==> !Makes(op, m)
    ensures var c := AfterAll(ops, b);
            m in c.count <==> Holders(c.wrapped, m) != {} || Spare(b.wrapped, b.count, m) + Ledger(ops, m) > 0
  {
    RunBalances(ops, b, m);
    var c := AfterAll(ops, b);
    hide AfterAll, AllAllowed, Ledger, Makes;
    assert forall w :: w in Holders(c.wrapped, m) ==> c.wrapped[w] in c.count;
    assert m in c.count ==> c.count[m] == |Holders(c.wrapped, m)| + Spare(c.wrapped, c.count, m);
  }

  /**
   A copied message: after any run that follows the copy and leaves no wrapper of it, it is still
   allocated unless the run has taken over or given back more references than others have taken.  The
   library does neither with a copy, so it leaks.
   */
  lemma CopyOutlives(ops: seq<MessageOp>, b: Books, w: Handle, m: Address)
    requires Backed(b.wrapped, b.count) && Allowed(CopyMessage(w, m), b)
    requires AllAllowed(ops, After(CopyMessage(w, m), b)) && forall op :: op in ops ==> !Makes(op, m)
    requires Holders(AfterAll(ops, After(CopyMessage(w, m), b)).wrapped, m) == {}
    ensures m in AfterAll(ops, After(CopyMessage(w, m), b)).count <==> Ledger(ops, m) >= 0
  {
    var copied := After(CopyMessage(w, m), b);
    Made(b, m, 1, m);
    Added(b.wrapped, b.count[m := 1], w, m);
    assert Holders(b.wrapped, m) == {};
    assert Raised(b.count[m := 1], m) == copied.count;
    assert Spare(b.wrapped, b.count[m := 1], m) == 1;
    hide Backed, Holders, AfterAll, AllAllowed, Ledger, Makes, Spare, Raised;
    assert Spare(copied.wrapped, copied.count, m) == 1;
    AliveIff(ops, copied, m);
  }

  lemma Repointed(m: map<Address, Address>, k: Address, a: Address, b: Address)
    ensures m[k := a][k := b] == m[k := b]
  {
  }

  class Wrappers {
    const pvt: Memory                   // the _pvt of every wrapper, by the number of the wrapper
    var msgOf: map<Address, Address>    // the msg of every Private
    var count: map<Address, int>        // the reference counts inside libdbus

    ghost predicate Valid()
      reads this, pvt
    {
      pvt.Valid() && Complete(pvt.ptrs, msgOf) && Backed(Wrapped(), count)
    }

    ghost function Wrapped(): map<Handle, Address>
      reads this, pvt
    {
      WrappedBy(pvt.ptrs, msgOf)
    }

    constructor ()
      ensures Valid() && Wrapped() == map[] && fresh(pvt)
    {
      pvt := new Memory();
      msgOf, count := map[], map[];
    }

    method DbusRef(m: Address)
      requires m in count
      modifies this`count
      ensures count == Raised(old(count), m)
    {
      count := count[m := count[m] + 1];
    }

    /** A message that loses its last reference is freed. */
    method DbusUnref(m: Address)
      requires m in count
      modifies this`count
      ensures count == Lowered(old(count), m)
    {
      if count[m] == 1 {
        count := count - {m};
      } else {
        count := count[m := count[m] - 1];
      }
    }

    /** dbus_message_new and its like: one reference, and nobody wraps it yet. */
    method DbusNew(m: Address)
      requires Valid() && m !in count
      modifies this`count
      ensures Valid() && Wrapped() == old(Wrapped())
      ensures count == old(count)[m := 1] && Spare(Wrapped(), count, m) == 1
    {
      ghost var before, n := Wrapped(), count[m := 1];
      assert Backed(before, n) && Spare(before, n, m) == 1 by {
        assert Holders(before, m) == {};
        hide Holders, WrappedBy;
        assert forall k :: k in count ==> Spare(before, n, k) == Spare(before, count, k);
      }
      hide Backed, Counted, Complete, WrappedBy, Holders, Spare;
      count := count[m := 1];
    }

    /** Message(Private *p, bool incref), p being new Private(m): share in the reference or take it over. */
    method FromPrivate(w: Handle, p: Address, m: Address, incref: bool, cell: Address)
      requires Valid() && p != NULL && Enabled(Create(w, p), pvt.View()) && cell !in pvt.counters
      requires m in count && (!incref ==> Spare(Wrapped(), count, m) > 0)
      modifies this, pvt
      ensures Valid() && Wrapped() == old(Wrapped())[w := m] && w in pvt.ptrs
      ensures count == if incref then Raised(old(count), m) else old(count)
    {
      ghost var before, ptrs, priv := Wrapped(), pvt.ptrs, msgOf[p := m];
      if incref {
        Added(before, count, w, m);
      } else {
        TakenOver(before, count, w, m);
      }
      PrivateMade(ptrs, msgOf, p, m);
      WrapperSet(ptrs, priv, w, p);
      hide Backed, Counted, Complete, WrappedBy, Raised, Holders, Apply;
      pvt.New(w, p, cell);
      msgOf := msgOf[p := m];
      if incref {
        DbusRef(m);
      }
    }

    /** Message(const Message &m, bool share_private); `t` is the temporary that holds the new Private. */
    method CopyOf(w: Handle, v: Handle, share: bool, t: Handle, p: Address, cell: Address)
      requires Valid() && v in pvt.ptrs && w !in pvt.ptrs && t !in pvt.ptrs && t != w
      requires p != NULL && Holders(pvt.ptrs, p) == {}
      modifies this, pvt
      ensures Valid() && Wrapped() == old(Wrapped())[w := old(Wrapped())[v]]
      ensures count == Raised(old(count), old(Wrapped())[v])
      ensures w in pvt.ptrs && pvt.ptrs[w] == if share then old(pvt.ptrs)[v] else p
    {
      ghost var before := Wrapped();
      Copying(pvt.ptrs, msgOf, count, w, v, p);
      hide Backed, Counted, Complete, WrappedBy, Raised, Holders, Apply;
      CopyPrivate(w, v, share, t, p);
      assert msgOf[pvt.ptrs[w]] == before[v];
      DbusRef(msgOf[pvt.ptrs[w]]);
    }

    /** `_pvt = new Private`, by way of the temporary `t`. */
    method Unshare(w: Handle, t: Handle, p: Address)
      requires pvt.Valid() && w in pvt.ptrs && t !in pvt.ptrs
      requires p != NULL && Holders(pvt.ptrs, p) == {}
      modifies this`msgOf, pvt
      ensures pvt.Valid() && pvt.ptrs == old(pvt.ptrs)[w := p] && msgOf == old(msgOf)[p := NULL]
    {
      hide Counted, Holders, Apply;
      ghost var ptrs := pvt.ptrs;
      FreshExists(pvt.counters.Keys);
      var c: Address :| c !in pvt.counters;
      pvt.New(t, p, c);
      msgOf := msgOf[p := NULL];
      pvt.Assign(w, t);
      pvt.Drop(t);
      assert pvt.ptrs == ptrs[w := p];
    }

    /** The Private of a copy: the same, or a new one with the same message. */
    method CopyPrivate(w: Handle, v: Handle, share: bool, t: Handle, p: Address)
      requires pvt.Valid() && v in pvt.ptrs && w !in pvt.ptrs && t !in pvt.ptrs && t != w
      requires p != NULL && Holders(pvt.ptrs, p) == {} && pvt.ptrs[v] in msgOf
      modifies this`msgOf, pvt
      ensures pvt.Valid()
      ensures share ==> pvt.ptrs == old(pvt.ptrs)[w := old(pvt.ptrs)[v]] && msgOf == old(msgOf)
      ensures !share ==> pvt.ptrs == old(pvt.ptrs)[w := p]
                         && msgOf == old(msgOf)[p := old(msgOf)[old(pvt.ptrs)[v]]]
    {
      ghost var ptrs, priv := pvt.ptrs, msgOf;
      assert ptrs[v] != p && Holders(ptrs[w := ptrs[v]], p) == {} by {
        assert v in Holders(ptrs, ptrs[v]);
        HoldersAfterSet(ptrs, w, ptrs[v], p);
      }
      hide Counted, Holders, Apply;
      pvt.Copy(w, v);
      if !share {
        Unshare(w, t, p);
        Repointed(ptrs, w, ptrs[v], p);
        Repointed(priv, p, NULL, priv[ptrs[v]]);
        assert pvt.ptrs[w] == p && pvt.ptrs[v] == ptrs[v] && msgOf[ptrs[v]] == priv[ptrs[v]];
        msgOf := msgOf[pvt.ptrs[w] := msgOf[pvt.ptrs[v]]];
      }
    }

    /** ~Message: the reference goes before the member does. */
    method Destroy(w: Handle)
      requires Valid() && w in pvt.ptrs
      modifies this, pvt
      ensures Valid() && Wrapped() == old(Wrapped()) - {w}
      ensures count == Lowered(old(count), old(Wrapped())[w])
    {
      ghost var before := Wrapped();
      Removed(before, count, w);
      WrapperDropped(pvt.ptrs, msgOf, w);
      assert before[w] in count && before[w] == msgOf[pvt.ptrs[w]];
      hide Backed, Counted, Complete, WrappedBy, Lowered, Apply;
      DbusUnref(msgOf[pvt.ptrs[w]]);
      pvt.Drop(w);
    }

    /** operator=: the old reference goes first, which is safe because the other wrapper has its own. */
    method Assign(w: Handle, v: Handle)
      requires Valid() && w in pvt.ptrs && v in pvt.ptrs
      modifies this, pvt
      ensures Valid() && Wrapped() == old(Wrapped())[w := old(Wrapped())[v]]
      ensures w == v ==> count == old(count)
      ensures w != v ==> var left := Lowered(old(count), old(Wrapped())[w]);
                         old(Wrapped())[v] in left && count == Raised(left, old(Wrapped())[v])
    {
      ghost var before := Wrapped();
      if v != w {
        Moving(pvt.ptrs, msgOf, count, w, v);
        hide Backed, Counted, Complete, WrappedBy, Lowered, Raised, Apply, Holders;
        DbusUnref(msgOf[pvt.ptrs[w]]);
        pvt.Assign(w, v);
        DbusRef(msgOf[pvt.ptrs[w]]);
      } else {
        assert before[w := before[v]] == before;
      }
    }

    /** Message::copy: it owns the copied message and yet adds a reference, which nobody gives back. */
    method Copy(w: Handle, m: Address, p: Address, cell: Address)
      requires Valid() && w !in pvt.ptrs && m !in count
      requires p != NULL && Holders(pvt.ptrs, p) == {} && cell !in pvt.counters
      modifies this, pvt
      ensures Valid() && Wrapped() == old(Wrapped())[w := m] && w in pvt.ptrs
      ensures count == old(count)[m := 2]
    {
      hide Backed, Counted, Complete, WrappedBy, Holders;
      DbusNew(m);
      FromPrivate(w, p, m, true, cell);
    }

    /** Somebody else takes a reference. */
    method Reference(m: Address)
      requires Valid() && m in count
      modifies this`count
      ensures Valid() && Wrapped() == old(Wrapped()) && count == Raised(old(count), m)
    {
      Referenced(Wrapped(), count, m);
      hide Backed, Counted, Complete, WrappedBy, Raised;
      DbusRef(m);
    }

    /** Somebody else gives a reference back. */
    method Release(m: Address)
      requires Valid() && m in count && Spare(Wrapped(), count, m) > 0
      modifies this`count
      ensures Valid() && Wrapped() == old(Wrapped()) && count == Lowered(old(count), m)
    {
      Released(Wrapped(), count, m);
      hide Backed, Counted, Complete, WrappedBy, Lowered, Spare;
      DbusUnref(m);
    }

    /** An address for the allocator to give: of no live Private. */
    method NewPrivate() returns (p: Address)
      ensures p != NULL && Holders(pvt.ptrs, p) == {}
    {
      FreshExists(pvt.ptrs.Values + {NULL});
      p :| p !in pvt.ptrs.Values + {NULL};
      assert forall w :: w in pvt.ptrs ==> pvt.ptrs[w] in pvt.ptrs.Values;
    }

    /** Any sequence of operations keeps the books of the value-level account. */
    method Run(ops: seq<MessageOp>)
      requires Valid() && AllAllowed(ops, Books(Wrapped(), count))
      modifies this, pvt
      ensures Valid() && Books(Wrapped(), count) == AfterAll(ops, Books(old(Wrapped()), old(count)))
    {
      hide Backed, Counted, Complete, WrappedBy, Allowed, After;
      var i := 0;
      assert ops[0..] == ops;
      while i < |ops|
        invariant 0 <= i <= |ops| && Valid()
        invariant AllAllowed(ops[i..], Books(Wrapped(), count))
        invariant AfterAll(ops[i..], Books(Wrapped(), count)) == AfterAll(ops, Books(old(Wrapped()), old(count)))
      {
        assert ops[i..][0] == ops[i] && ops[i..][1..] == ops[i + 1..];
        Perform(ops[i]);
        i := i + 1;
      }
    }

    method Perform(op: MessageOp)
      requires Valid() && Allowed(op, Books(Wrapped(), count))
      modifies this, pvt
      ensures Valid() && Books(Wrapped(), count) == After(op, Books(old(Wrapped()), old(count)))
    {
      hide Backed, Counted, Holders, Spare;
      Wrapping(pvt.ptrs, msgOf);
      hide Complete, WrappedBy;
      match op {
        case Receive(m) => DbusNew(m);
        case Reference(m) => Reference(m);
        case Release(m) => Release(m);
        case Share(w, m) => PerformWrap(w, m, true);
        case TakeOver(w, m) => PerformWrap(w, m, false);
        case Duplicate(w, v, share) => PerformCopy(w, v, share);
        case Reassign(w, v) => Assign(w, v);
        case Discard(w) => Destroy(w);
        case CopyMessage(w, m) => PerformCopyMessage(w, m);
      }
    }

    method PerformWrap(w: Handle, m: Address, incref: bool)
      requires Valid() && w !in pvt.ptrs && m in count && (!incref ==> Spare(Wrapped(), count, m) > 0)
      modifies this, pvt
      ensures Valid() && Wrapped() == old(Wrapped())[w := m]
      ensures count == if incref then Raised(old(count), m) else old(count)
    {
      hide Backed, Counted, Complete, WrappedBy, Spare, Raised;
      var p := NewPrivate();
      FreshExists(pvt.counters.Keys);
      var cell: Address :| cell !in pvt.counters;
      FromPrivate(w, p, m, incref, cell);
    }

    method PerformCopy(w: Handle, v: Handle, share: bool)
      requires Valid() && w !in pvt.ptrs && v in pvt.ptrs
      modifies this, pvt
      ensures Valid() && Wrapped() == old(Wrapped())[w := old(Wrapped())[v]]
      ensures count == Raised(old(count), old(Wrapped())[v])
    {
      hide Backed, Counted, Complete, WrappedBy, Raised;
      var p := NewPrivate();
      FreshExists(pvt.ptrs.Keys + {w});
      var t: Handle :| t !in pvt.ptrs.Keys + {w};
      CopyOf(w, v, share, t, p, 0);
    }

    method PerformCopyMessage(w: Handle, m: Address)
      requires Valid() && w !in pvt.ptrs && m !in count
      modifies this, pvt
      ensures Valid() && Wrapped() == old(Wrapped())[w := m] && count == old(count)[m := 2]
    {
      hide Backed, Counted, Complete, WrappedBy;
      var p := NewPrivate();
      FreshExists(pvt.counters.Keys);
      var cell: Address :| cell !in pvt.counters;
      Copy(w, m, p, cell);
    }
  }

  /** Every live Private's message is wrapped. */
  lemma Wrapping(ptrs: map<Handle, Address>, msgOf: map<Address, Address>)
    requires Complete(ptrs, msgOf)
    ensures WrappedBy(ptrs, msgOf).Keys == ptrs.Keys
  {
  }
}
