/** The intrusive circular list: nodes linked both ways through a head that is itself a node. */
module CircularList {

  class ListHead {
    var next: ListHead?
    var prev: ListHead?

    constructor ()
      ensures next == this && prev == this && Ring([this])
    {
      next, prev := this, this;
    }
  }

  function Succ(i: nat, n: nat): (j: nat)
    requires i < n
    ensures j < n
  {
    if i + 1 < n then i + 1 else 0
  }

  ghost predicate Distinct(s: seq<ListHead>) {
    forall i, j :: 0 <= i < j < |s| ==> s[i] != s[j]
  }

  /** Node a is followed by node b. */
  ghost predicate Linked(a: ListHead, b: ListHead)
    reads a, b
  {
    a.next == b && b.prev == a
  }

  /** s lists the nodes of a circular list once each, in order, its first element being the head. */
  ghost predicate Ring(s: seq<ListHead>)
    reads s
  {
    && s != [] && Distinct(s)
    && forall i :: 0 <= i < |s| ==> Linked(s[i], s[Succ(i, |s|)])
  }

  /** In a ring, next and prev are inverse to each other. */
  lemma RingInverse(s: seq<ListHead>, i: nat)
    requires Ring(s) && i < |s|
    ensures s[i].next != null && s[i].next.prev == s[i]
    ensures s[i].prev != null && s[i].prev.next == s[i]
    ensures s[i].next in s && s[i].prev in s
  {
    var p := if i == 0 then |s| - 1 else i - 1;
    assert Linked(s[i], s[Succ(i, |s|)]);
    assert Linked(s[p], s[Succ(p, |s|)]);
  }

  /** The links determine the sequence: from one head there is only one ring. */
  lemma RingUnique(s: seq<ListHead>, t: seq<ListHead>)
    requires Ring(s) && Ring(t) && s[0] == t[0]
    ensures s == t
  {
    if |s| < |t| {
      assert Linked(s[|s| - 1], s[Succ(|s| - 1, |s|)]) && Linked(t[|s| - 1], t[Succ(|s| - 1, |t|)]);
      RingAgree(s, t, |s| - 1);
    } else if |t| < |s| {
      assert Linked(s[|t| - 1], s[Succ(|t| - 1, |s|)]) && Linked(t[|t| - 1], t[Succ(|t| - 1, |t|)]);
      RingAgree(s, t, |t| - 1);
    } else {
      forall i | 0 <= i < |s| ensures s[i] == t[i] { RingAgree(s, t, i); }
    }
  }

  lemma {:induction false} RingAgree(s: seq<ListHead>, t: seq<ListHead>, i: nat)
    requires Ring(s) && Ring(t) && s[0] == t[0] && i < |s| && i < |t|
    ensures s[i] == t[i]
  {
    if i > 0 {
      RingAgree(s, t, i - 1);
      assert Linked(s[i - 1], s[Succ(i - 1, |s|)]) && Linked(t[i - 1], t[Succ(i - 1, |t|)]);
    }
  }

  function Insert(s: seq<ListHead>, i: nat, x: ListHead): seq<ListHead>
    requires i <= |s|
  {
    s[..i] + [x] + s[i..]
  }

  function Remove(s: seq<ListHead>, i: nat): seq<ListHead>
    requires i < |s|
  {
    s[..i] + s[i + 1..]
  }

  lemma RemoveFacts(s: seq<ListHead>, k: nat)
    requires Distinct(s) && 0 < k < |s|
    ensures s[k] !in Remove(s, k) && Remove(s, k)[0] == s[0]
    ensures forall x :: x in Remove(s, k) ==> x in s
  {}

  /** Two lists without a common node, one put behind the head of the other. */
  lemma SpliceDistinct(s: seq<ListHead>, t: seq<ListHead>)
    requires Distinct(s) && Distinct(t) && s != [] && t != [] && forall x :: x in s ==> x !in t
    ensures Distinct([s[0]] + t[1..] + s[1..]) && t[0] !in [s[0]] + t[1..] + s[1..]
  {
    var r := [s[0]] + t[1..] + s[1..];
    forall i, j | 0 <= i < j < |r| ensures r[i] != r[j] {
      var a := if i == 0 then s[0] else if i < |t| then t[i] else s[i - |t| + 1];
      var b := if j < |t| then t[j] else s[j - |t| + 1];
      assert r[i] == a && r[j] == b;
      if i == 0 || |t| <= i { assert a in s; } else { assert a in t; }
      if j < |t| { assert b in t; } else { assert b in s; }
    }
    forall i | 0 <= i < |r| ensures r[i] != t[0] {
      if 0 < i < |t| {
        assert r[i] == t[i];
      } else {
        var k := if i == 0 then 0 else i - |t| + 1;
        assert r[i] == s[k] && s[k] in s && t[0] in t;
      }
    }
  }

  /** __list_add: between two consecutive nodes. */
  method AddBetween(x: ListHead, prev: ListHead, next: ListHead, ghost s: seq<ListHead>, ghost i: nat)
    requires Ring(s) && x !in s && i < |s| && prev == s[i] && next == s[Succ(i, |s|)]
    modifies x, prev, next
    ensures Ring(Insert(s, i + 1, x))
  {
    next.prev := x;
    x.next := next;
    x.prev := prev;
    prev.next := x;
    ghost var r := Insert(s, i + 1, x);
    forall j | 0 <= j < |r| ensures Linked(r[j], r[Succ(j, |r|)]) {
      if j < i {
        assert old(Linked(s[j], s[Succ(j, |s|)]));
      } else if i + 1 < j {
        assert old(Linked(s[j - 1], s[Succ(j - 1, |s|)]));
      }
    }
  }

  /** list_add: the new node becomes the first. */
  method Add(x: ListHead, head: ListHead, ghost s: seq<ListHead>)
    requires Ring(s) && s[0] == head && x !in s
    modifies x, s
    ensures Ring([head, x] + s[1..])
  {
    assert Linked(s[0], s[Succ(0, |s|)]);
    AddBetween(x, head, head.next, s, 0);
    assert Insert(s, 1, x) == [head, x] + s[1..];
  }

  /** list_add_tail: the new node becomes the last. */
  method AddTail(x: ListHead, head: ListHead, ghost s: seq<ListHead>)
    requires Ring(s) && s[0] == head && x !in s
    modifies x, s
    ensures Ring(s + [x])
  {
    assert Linked(s[|s| - 1], s[Succ(|s| - 1, |s|)]);
    AddBetween(x, head.prev, head, s, |s| - 1);
    assert Insert(s, |s|, x) == s + [x];
  }

  /** __list_del on the neighbours of a node. */
  method Unlink(prev: ListHead, next: ListHead, ghost s: seq<ListHead>, ghost k: nat)
    requires Ring(s) && k < |s| && prev == s[k].prev && next == s[k].next
    modifies prev, next
    ensures |s| > 1 ==> Ring(Remove(s, k)) && s[k].next == old(s[k].next) && s[k].prev == old(s[k].prev)
    ensures |s| == 1 ==> Ring(s)
  {
    ghost var p := if k == 0 then |s| - 1 else k - 1;
    assert Linked(s[k], s[Succ(k, |s|)]) && Linked(s[p], s[Succ(p, |s|)]);
    next.prev := prev;
    prev.next := next;
    if |s| > 1 {
      ghost var r := Remove(s, k);
      forall j | 0 <= j < |r| ensures Linked(r[j], r[Succ(j, |r|)]) {
        if j < k {
          assert old(Linked(s[j], s[Succ(j, |s|)]));
        } else {
          assert old(Linked(s[j + 1], s[Succ(j + 1, |s|)]));
        }
      }
    }
  }

  /** list_del: the entry leaves the list and its links are cleared. */
  method Del(entry: ListHead, ghost s: seq<ListHead>, ghost k: nat)
    requires Ring(s) && 0 < k < |s| && entry == s[k]
    modifies s
    ensures Ring(Remove(s, k)) && entry.next == null && entry.prev == null
  {
    RingInverse(s, k);
    RemoveFacts(s, k);
    Unlink(entry.prev, entry.next, s, k);
    entry.next := null;
    entry.prev := null;
  }

  /** list_del_init: the entry becomes a list of its own. */
  method DelInit(entry: ListHead, ghost s: seq<ListHead>, ghost k: nat)
    requires Ring(s) && 0 < k < |s| && entry == s[k]
    modifies s
    ensures Ring(Remove(s, k)) && Ring([entry])
  {
    RingInverse(s, k);
    RemoveFacts(s, k);
    Unlink(entry.prev, entry.next, s, k);
    entry.next := entry;
    entry.prev := entry;
  }

  /** A list none of whose nodes changed is still a list. */
  twostate lemma KeepRing(r: seq<ListHead>)
    requires old(Ring(r)) && forall i :: 0 <= i < |r| ==> r[i].next == old(r[i].next) && r[i].prev == old(r[i].prev)
    ensures Ring(r)
  {
    forall i | 0 <= i < |r| ensures Linked(r[i], r[Succ(i, |r|)]) {
      assert old(Linked(r[i], r[Succ(i, |r|)]));
    }
  }

  /** list_move within one list: the entry becomes the first. */
  method MoveWithin(entry: ListHead, head: ListHead, ghost s: seq<ListHead>, ghost k: nat)
    requires Ring(s) && 0 < k < |s| && entry == s[k] && head == s[0]
    modifies s
    ensures Ring([head, entry] + Remove(s, k)[1..])
  {
    RingInverse(s, k);
    RemoveFacts(s, k);
    Unlink(entry.prev, entry.next, s, k);
    Add(entry, head, Remove(s, k));
  }

  /** list_move from one list to the front of another. */
  method MoveAcross(entry: ListHead, head: ListHead, ghost s: seq<ListHead>, ghost k: nat, ghost t: seq<ListHead>)
    requires Ring(s) && 0 < k < |s| && entry == s[k]
    requires Ring(t) && head == t[0] && forall x :: x in s ==> x !in t
    modifies s, t
    ensures Ring(Remove(s, k)) && Ring([head, entry] + t[1..])
  {
    RingInverse(s, k);
    RemoveFacts(s, k);
    Unlink(entry.prev, entry.next, s, k);
    forall i | 0 <= i < |s| - 1 ensures Remove(s, k)[i] in s && Remove(s, k)[i] != entry {
      assert Remove(s, k)[i] in Remove(s, k);
    }
    label unlinked:
    Add(entry, head, t);
    KeepRing@unlinked(Remove(s, k));
  }

  /** list_move_tail within one list: the entry becomes the last. */
  method MoveTailWithin(entry: ListHead, head: ListHead, ghost s: seq<ListHead>, ghost k: nat)
    requires Ring(s) && 0 < k < |s| && entry == s[k] && head == s[0]
    modifies s
    ensures Ring(Remove(s, k) + [entry])
  {
    RingInverse(s, k);
    RemoveFacts(s, k);
    Unlink(entry.prev, entry.next, s, k);
    AddTail(entry, head, Remove(s, k));
  }

  /** list_move_tail from one list to the end of another. */
  method MoveTailAcross(entry: ListHead, head: ListHead, ghost s: seq<ListHead>, ghost k: nat, ghost t: seq<ListHead>)
    requires Ring(s) && 0 < k < |s| && entry == s[k]
    requires Ring(t) && head == t[0] && forall x :: x in s ==> x !in t
    modifies s, t
    ensures Ring(Remove(s, k)) && Ring(t + [entry])
  {
    RingInverse(s, k);
    RemoveFacts(s, k);
    Unlink(entry.prev, entry.next, s, k);
    forall i | 0 <= i < |s| - 1 ensures Remove(s, k)[i] in s && Remove(s, k)[i] != entry {
      assert Remove(s, k)[i] in Remove(s, k);
    }
    label unlinked:
    AddTail(entry, head, t);
    KeepRing@unlinked(Remove(s, k));
  }

  /** list_empty. */
  method IsEmpty(head: ListHead, ghost s: seq<ListHead>) returns (empty: bool)
    requires Ring(s) && s[0] == head
    ensures empty <==> s == [head]
  {
    assert Linked(s[0], s[Succ(0, |s|)]);
    empty := head.next == head;
  }

  /** __list_splice: the nodes of a non-empty list, without its head, go in behind another head. */
  method SpliceNonEmpty(list: ListHead, head: ListHead, ghost t: seq<ListHead>, ghost s: seq<ListHead>)
    requires Ring(t) && |t| > 1 && list == t[0]
    requires Ring(s) && head == s[0] && forall x :: x in s ==> x !in t
    modifies s, t
    ensures Ring([head] + t[1..] + s[1..])
    ensures list.next == old(list.next) && list.prev == old(list.prev)
  {
    assert Linked(t[0], t[Succ(0, |t|)]) && Linked(t[|t| - 1], t[Succ(|t| - 1, |t|)]);
    assert Linked(s[0], s[Succ(0, |s|)]);
    SpliceDistinct(s, t);
    var first, last, at := list.next, list.prev, head.next;
    first.prev := head;
    head.next := first;
    last.next := at;
    at.prev := last;
    ghost var r := [head] + t[1..] + s[1..];
    assert first == t[1] && last == t[|t| - 1] && at == s[Succ(0, |s|)];
    forall j | 0 <= j < |r| ensures Linked(r[j], r[Succ(j, |r|)]) {
      if 1 <= j < |t| - 1 {
        assert r[j] == t[j] && r[Succ(j, |r|)] == t[j + 1];
        assert t[j] in t && t[j + 1] in t && head in s && at in s;
        assert old(Linked(t[j], t[Succ(j, |t|)]));
      } else if |t| <= j {
        var i := j - |t| + 1;
        assert r[j] == s[i] && r[Succ(j, |r|)] == s[Succ(i, |s|)];
        assert s[i] in s && s[Succ(i, |s|)] in s && first in t && last in t;
        assert old(Linked(s[i], s[Succ(i, |s|)]));
      }
    }
  }

  /** list_splice. */
  method Splice(list: ListHead, head: ListHead, ghost t: seq<ListHead>, ghost s: seq<ListHead>)
    requires Ring(t) && list == t[0]
    requires Ring(s) && head == s[0] && forall x :: x in s ==> x !in t
    modifies s, t
    ensures Ring([head] + t[1..] + s[1..])
  {
    var empty := IsEmpty(list, t);
    if !empty {
      SpliceNonEmpty(list, head, t, s);
    } else {
      assert [head] + t[1..] + s[1..] == s;
    }
  }

  /** list_splice_init: as above, and the list that was emptied is a list again. */
  method SpliceInit(list: ListHead, head: ListHead, ghost t: seq<ListHead>, ghost s: seq<ListHead>)
    requires Ring(t) && list == t[0]
    requires Ring(s) && head == s[0] && forall x :: x in s ==> x !in t
    modifies s, t
    ensures Ring([head] + t[1..] + s[1..]) && Ring([list])
  {
    var empty := IsEmpty(list, t);
    if !empty {
      SpliceNonEmpty(list, head, t, s);
      SpliceDistinct(s, t);
      list.next := list;
      list.prev := list;
    } else {
      assert [head] + t[1..] + s[1..] == s;
    }
  }

  /** The list_for_each_safe pattern with list_del in its body: every node is visited once, in order,
      and only the head is left. */
  method DeleteAll(head: ListHead, ghost s: seq<ListHead>) returns (visited: seq<ListHead>)
    requires Ring(s) && s[0] == head
    modifies s
    ensures visited == s[1..] && Ring([head])
    ensures forall x :: x in s && x != head ==> x.next == null && x.prev == null
  {
    hide Deleting, Ring, Rest;
    visited := [];
    ghost var m := 0;
    var pos, n := First(head, s);
    while pos != head
      invariant m < |s| && Deleting(s, m, pos, n) && s[0] == head
      invariant visited == s[1..m + 1]
      decreases |s| - m
    {
      AtTurn(s, m, pos, n);
      visited := visited + [pos];
      pos, n := DeleteFirst(pos, n, head, s, m);
      m := m + 1;
    }
    AtEnd(s, m, pos, n);
  }

  /** The state of the traversal before its turn number m. */
  ghost predicate Deleting(s: seq<ListHead>, m: nat, pos: ListHead, n: ListHead?)
    reads s, pos
  {
    && Distinct(s) && m < |s| && Ring(Rest(s, m))
    && pos == s[Succ(m, |s|)] && n == pos.next && n != null
    && (forall i :: 1 <= i <= m ==> s[i].next == null && s[i].prev == null)
  }

  lemma AtTurn(s: seq<ListHead>, m: nat, pos: ListHead, n: ListHead)
    requires Deleting(s, m, pos, n) && pos != s[0]
    ensures m + 1 < |s| && pos == s[m + 1]
  {}

  lemma AtEnd(s: seq<ListHead>, m: nat, pos: ListHead, n: ListHead)
    requires Deleting(s, m, pos, n) && pos == s[0]
    ensures m == |s| - 1 && Ring([s[0]])
    ensures forall x :: x in s && x != s[0] ==> x.next == null && x.prev == null
  {
    assert m == |s| - 1 && Rest(s, m) == [s[0]];
  }

  /** The initialisation of the loop. */
  method First(head: ListHead, ghost s: seq<ListHead>) returns (pos: ListHead, n: ListHead)
    requires Ring(s) && s[0] == head
    ensures Deleting(s, 0, pos, n)
  {
    assert Linked(s[0], s[Succ(0, |s|)]);
    pos := head.next;
    RingInverse(s, Succ(0, |s|));
    n := pos.next;
    assert Rest(s, 0) == s;
  }

  /** What is left of a list after its first m nodes were deleted. */
  function Rest(s: seq<ListHead>, m: nat): (r: seq<ListHead>)
    requires m < |s|
    ensures |r| == |s| - m && r[0] == s[0]
  {
    [s[0]] + s[m + 1..]
  }

  /** One turn of the loop: delete the current node, go on to the one remembered before. */
  method DeleteFirst(pos0: ListHead, n0: ListHead, head: ListHead, ghost s: seq<ListHead>, ghost m: nat)
    returns (pos: ListHead, n: ListHead)
    requires s != [] && head == s[0] && pos0 != head
    requires Deleting(s, m, pos0, n0)
    modifies s
    ensures Deleting(s, m + 1, pos, n)
  {
    ghost var left := Rest(s, m);
    NextInRest(s, m, pos0, n0);
    RestApart(s, m);
    Del(pos0, left, 1);
    assert Remove(left, 1) == Rest(s, m + 1);
    pos := n0;
    RingInverse(Rest(s, m + 1), Succ(0, |s| - m - 1));
    n := pos.next;
  }

  /** The node remembered before a deletion is the first of what the deletion leaves. */
  lemma NextInRest(s: seq<ListHead>, m: nat, pos: ListHead, n: ListHead)
    requires Deleting(s, m, pos, n) && pos != s[0]
    ensures m + 1 < |s| && pos == s[m + 1] == Rest(s, m)[1]
    ensures n == s[Succ(m + 1, |s|)] == Rest(s, m + 1)[Succ(0, |s| - m - 1)]
  {
    var left := Rest(s, m);
    assert Linked(left[1], left[Succ(1, |left|)]);
  }

  lemma RestApart(s: seq<ListHead>, m: nat)
    requires Distinct(s) && m < |s|
    ensures forall x :: x in Rest(s, m) ==> x in s
    ensures forall i :: 1 <= i <= m ==> s[i] !in Rest(s, m)
  {
    forall i | 1 <= i <= m ensures s[i] !in Rest(s, m) {
      forall j | 0 <= j < |Rest(s, m)| ensures Rest(s, m)[j] != s[i] {
        assert Rest(s, m)[j] == s[if j == 0 then 0 else m + j];
      }
    }
  }

  /** list_for_each: every node once, in order, nothing changed. */
  method Visit(head: ListHead, ghost s: seq<ListHead>) returns (visited: seq<ListHead>)
    requires Ring(s) && s[0] == head
    ensures visited == s[1..]
  {
    visited := [];
    assert Linked(s[0], s[Succ(0, |s|)]);
    var pos := head.next;
    ghost var i := Succ(0, |s|);
    while pos != head
      invariant i < |s| && pos == s[i] && visited == if i == 0 then s[1..] else s[1..i]
      decreases if i == 0 then 0 else |s| - i
    {
      assert Linked(s[i], s[Succ(i, |s|)]);
      visited := visited + [pos];
      pos := pos.next;
      i := Succ(i, |s|);
    }
  }
}
