/** Process control blocks and the singly linked lists threaded through them. */
module Lists {
  import opened Seqs
  import opened SchedModel

  class PCB {
    var state: PState
    var timeCount: int
    var sleepTime: Int32
    var pid: int
    var ppid: int
    var psem: Option<SemId>
    var fpNum: int
    var filepointer: seq<int>
    var next: PCB?

    constructor ()
      ensures next == null
    {
      next := null;
    }
  }

  /** r is a chain of next fields from its first node, the list head, to null. */
  ghost predicate Linked(r: seq<PCB>)
    reads r`next
  {
    && |r| > 0
    && (forall i :: 0 <= i < |r| - 1 ==> r[i].next == r[i + 1])
    && r[|r| - 1].next == null
  }

  ghost function Last(head: PCB, xs: seq<PCB>): PCB {
    if xs == [] then head else xs[|xs| - 1]
  }

  /** A chain that ends cannot visit a node twice. */
  lemma {:induction false} LinkedNoDup(r: seq<PCB>, i: nat, j: nat)
    requires Linked(r) && i < j < |r|
    ensures r[i] != r[j]
    decreases |r| - j
  {
    assert r[i].next == r[i + 1];
    if j < |r| - 1 {
      assert r[j].next == r[j + 1];
      LinkedNoDup(r, i + 1, j + 1);
    }
  }

  lemma AllDistinct(r: seq<PCB>)
    requires Linked(r)
    ensures NoDup(r)
  {
    forall i, j | 0 <= i < j < |r|
      ensures r[i] != r[j]
    {
      LinkedNoDup(r, i, j);
    }
  }

  /** The node after position i of the chain r, or null at its end. */
  ghost function After(r: seq<PCB>, i: nat): PCB? {
    if i + 1 < |r| then r[i + 1] else null
  }

  twostate lemma LinkedKept(r: seq<PCB>)
    requires old(Linked(r)) && forall x :: x in r ==> x.next == old(x.next)
    ensures Linked(r)
  {
  }

  method ListAdd(head: PCB, data: PCB, ghost xs: seq<PCB>)
    requires Linked([head] + xs) && data != head && data !in xs
    modifies Last(head, xs)`next, data`next
    ensures Linked([head] + (xs + [data]))
  {
    ghost var r := [head] + xs;
    var p := head;
    ghost var k := 0;
    while p.next != null
      invariant 0 <= k < |r| && p == r[k] && p.next == After(r, k)
      decreases |r| - k
    {
      p := p.next;
      k := k + 1;
    }
    AllDistinct(r);
    data.next := p.next;
    p.next := data;
    assert [head] + (xs + [data]) == r + [data];
  }

  /** Unlinking the node after position k. */
  lemma LinkedDrop(r: seq<PCB>, k: nat)
    requires k + 1 < |r|
    requires forall i :: 0 <= i < |r| ==> r[i].next == After(r, if i == k then k + 1 else i)
    ensures Linked(DropAt(r, k + 1))
  {
    hide NoDup, Remove, IndexOf, DropAt, After;
    var s := DropAt(r, k + 1);
    NextDropped(r, k, 0);
    forall i | 0 <= i < |r| - 1
      ensures i < |s| && s[i].next == After(s, i)
    {
      assert r[if i <= k then i else i + 1].next == After(r, if i < k then i else i + 1);
      NextDropped(r, k, i);
    }
    LinkedAfter(s);
  }

  lemma NextDropped(r: seq<PCB>, k: nat, i: nat)
    requires k + 1 < |r| && i < |r| - 1
    ensures |DropAt(r, k + 1)| == |r| - 1 && DropAt(r, k + 1)[i] == r[if i <= k then i else i + 1]
    ensures After(DropAt(r, k + 1), i) == After(r, if i < k then i else i + 1)
  {
    hide NoDup;
  }

  lemma LinkedAfter(s: seq<PCB>)
    requires |s| > 0 && forall i :: 0 <= i < |s| ==> s[i].next == After(s, i)
    ensures Linked(s)
  {
  }

  lemma RemoveFirst(head: PCB, xs: seq<PCB>, data: PCB, k: nat)
    requires k < |xs| && xs[k] == data && forall i :: 0 <= i < k ==> xs[i] != data
    ensures [head] + Remove(xs, data) == DropAt([head] + xs, k + 1)
  {
    assert IndexOf(xs, data) == k;
  }

  /** False, with nothing changed, where the kernel halts because data is not on the list. */
  method ListDelete(head: PCB, data: PCB, ghost xs: seq<PCB>) returns (ok: bool)
    requires Linked([head] + xs)
    modifies ([head] + xs)`next
    ensures ok <==> data in xs
    ensures ok ==> Linked([head] + Remove(xs, data))
    ensures !ok ==> Linked([head] + xs)
  {
    hide Remove, IndexOf, DropAt, NoDup;
    ghost var r := [head] + xs;
    var p := head;
    ghost var k := 0;
    while p.next != null && p.next != data
      invariant 0 <= k < |r| && p == r[k] && p.next == After(r, k)
      invariant forall i :: 0 <= i < k ==> xs[i] != data
      decreases |r| - k
    {
      p := p.next;
      k := k + 1;
    }
    if p.next == null {
      return false;
    }
    assert k < |xs| && xs[k] == data;
    RemoveFirst(head, xs, data, k);
    forall i | 0 <= i < |r| && i != k
      ensures r[i] != r[k]
    {
      if i < k {
        LinkedNoDup(r, i, k);
      } else {
        LinkedNoDup(r, k, i);
      }
    }
    var q := p.next;
    p.next := q.next;
    LinkedDrop(r, k);
    return true;
  }

  /** Null where the kernel halts because the list is empty. */
  method ListHead(head: PCB, ghost xs: seq<PCB>) returns (p: PCB?)
    requires Linked([head] + xs)
    ensures p == if xs == [] then null else xs[0]
  {
    p := head.next;
    ghost var r := [head] + xs;
    assert r[0].next == if xs == [] then null else r[1];
  }
}
