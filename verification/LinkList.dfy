/** The bounded singly linked list the Unix link driver queues its packets in. */
module LinkList {
  import opened Common

  class Elem<T> {
    var data: T
    var next: Elem?<T>

    constructor (data: T)
      ensures this.data == data && next == null
    {
      this.data, next := data, null;
    }
  }

  ghost function Data<T>(nodes: seq<Elem<T>>): (data: seq<T>)
    reads nodes
    ensures |data| == |nodes| && forall k :: 0 <= k < |nodes| ==> data[k] == nodes[k].data
  {
    if nodes == [] then [] else [nodes[0].data] + Data(nodes[1..])
  }

  /** The sequence without its first `x`, if it has one. */
  function Without<T(==)>(s: seq<T>, x: T): seq<T> {
    if s == [] then [] else if s[0] == x then s[1..] else [s[0]] + Without(s[1..], x)
  }

  lemma {:induction false} WithoutAt<T>(s: seq<T>, x: T, k: nat)
    requires k < |s| && s[k] == x && x !in s[..k]
    ensures Without(s, x) == Cut(s, k)
  {
    if k > 0 {
      assert s[0] == s[..k][0];
      assert s[1..][..k - 1] == s[..k][1..];
      WithoutAt(s[1..], x, k - 1);
      assert s[..k] + s[k + 1..] == [s[0]] + (s[1..][..k - 1] + s[1..][k..]);
    }
  }

  lemma {:induction false} WithoutAbsent<T>(s: seq<T>, x: T)
    requires x !in s
    ensures Without(s, x) == s
  {
    if s != [] {
      assert s[0] in s;
      WithoutAbsent(s[1..], x);
    }
  }

  /** The sequence without its element at `k`. */
  function Cut<T>(s: seq<T>, k: nat): (cut: seq<T>)
    requires k < |s|
    ensures |cut| == |s| - 1 && forall i :: 0 <= i < |cut| ==> cut[i] == s[if i < k then i else i + 1]
  {
    s[..k] + s[k + 1..]
  }

  class List<T(==)> {
    var first: Elem?<T>
    var last: Elem?<T>
    const size: int
    var elems: int
    ghost var nodes: seq<Elem<T>>

    ghost predicate Valid()
      reads this, nodes
    {
      && elems == |nodes|
      && (elems == 0 || elems <= size)
      && first == At(nodes, 0)
      && last == (if nodes == [] then null else nodes[|nodes| - 1])
      && Distinct(nodes)
      && Leads(nodes)
    }

    static function At(nodes: seq<Elem<T>>, i: nat): Elem?<T> {
      if i < |nodes| then nodes[i] else null
    }

    static ghost predicate Distinct(nodes: seq<Elem<T>>) {
      forall i, j :: 0 <= i < j < |nodes| ==> nodes[i] != nodes[j]
    }

    static lemma DistinctCut(nodes: seq<Elem<T>>, k: nat)
      requires Distinct(nodes) && k < |nodes|
      ensures Distinct(Cut(nodes, k))
      ensures nodes[k] != nodes[|nodes| - 1] || k == |nodes| - 1
    {
    }

    /** Each node leads to the one after it. */
    static ghost predicate Leads(nodes: seq<Elem<T>>)
      reads nodes
    {
      forall i :: 0 <= i < |nodes| ==> nodes[i].next == At(nodes, i + 1)
    }

    ghost function Contents(): seq<T>
      reads this, nodes
    {
      Data(nodes)
    }

    /** list_new. */
    constructor (size: int)
      ensures Valid() && Contents() == [] && this.size == size && nodes == []
    {
      this.size := size;
      first, last, elems, nodes := null, null, 0, [];
    }

    /** list_push. */
    method Push(data: T) returns (ok: bool)
      requires Valid()
      modifies this, nodes
      ensures Valid() && ok == (|old(Contents())| < size)
      ensures Contents() == if ok then old(Contents()) + [data] else old(Contents())
      ensures forall k :: 0 <= k < |nodes| ==> nodes[k] in old(nodes) || fresh(nodes[k])
    {
      hide Data;
      if elems < size {
        var elem := new Elem(data);
        if last != null {
          last.next := elem;
        }
        last := elem;
        if first == null {
          first := elem;
        }
        elems := elems + 1;
        nodes := nodes + [elem];
        assert Contents() == old(Contents()) + [data];
        return true;
      }
      return false;
    }

    /** list_pop. */
    method Pop() returns (data: Option<T>)
      requires Valid()
      modifies this
      ensures Valid() && nodes == (if old(nodes) == [] then [] else old(nodes)[1..])
      ensures old(Contents()) == [] ==> data == None && Contents() == []
      ensures old(Contents()) != [] ==> data == Some(old(Contents())[0]) && Contents() == old(Contents())[1..]
    {
      if elems > 0 {
        var elem := first;
        assert elem == nodes[0] && |nodes| > 1 ==> nodes[0] != nodes[|nodes| - 1] && nodes[0].next == nodes[1];
        if elem == last {
          last := elem.next;
        }
        first := elem.next;
        elems := elems - 1;
        nodes := nodes[1..];
        return Some(elem.data);
      }
      return None;
    }

    /** list_elems. */
    method Elems() returns (n: int)
      requires Valid()
      ensures n == |Contents()|
    {
      n := elems;
    }

    /** list_remove: the first element equal to `x` is unlinked. */
    method Remove(x: T) returns (ok: bool)
      requires Valid()
      modifies this, nodes
      ensures Valid() && ok == (x in old(Contents()))
      ensures Contents() == Without(old(Contents()), x)
      ensures forall k :: 0 <= k < |nodes| ==> nodes[k] in old(nodes)
    {
      hide Data;
      var p: Elem?<T>, e := null, first;
      ghost var k := 0;
      while e != null
        invariant k <= |nodes| && e == At(nodes, k)
        invariant p == if k > 0 then nodes[k - 1] else null
        invariant x !in Contents()[..k]
        decreases |nodes| - k
      {
        if e.data == x {
          WithoutAt(Contents(), x, k);
          Unlink(p, e, k);
          return true;
        }
        assert Contents()[..k + 1] == Contents()[..k] + [e.data];
        p := e;
        e := e.next;
        k := k + 1;
      }
      assert Contents()[..k] == Contents();
      WithoutAbsent(Contents(), x);
      return false;
    }

    method Unlink(p: Elem?<T>, e: Elem<T>, ghost k: nat)
      requires Valid() && k < |nodes| && e == nodes[k] && p == if k > 0 then nodes[k - 1] else null
      modifies this, nodes
      ensures Valid() && nodes == old(Cut(nodes, k))
      ensures Contents() == old(Cut(Contents(), k))
    {
      hide Leads, Distinct, Cut;
      ghost var data := Contents();
      UnlinkNode(p, e, k);
      assert |Contents()| == |data| - 1;
      forall i | 0 <= i < |nodes| ensures nodes[i].data == data[if i < k then i else i + 1] {
        assert nodes[i] == old(nodes)[if i < k then i else i + 1];
      }
    }

    method UnlinkNode(p: Elem?<T>, e: Elem<T>, ghost k: nat)
      requires Valid() && k < |nodes| && e == nodes[k] && p == if k > 0 then nodes[k - 1] else null
      modifies this, nodes
      ensures Valid() && nodes == old(Cut(nodes, k))
      ensures forall e :: e in old(nodes) ==> e.data == old(e.data)
    {
      hide Data, Distinct, Cut, At;
      ghost var was := nodes;
      DistinctCut(was, k);
      AtCut(was, k);
      Bypass(p, e, k);
      elems := elems - 1;
      nodes := Cut(was, k);
      forall i | 0 <= i < |nodes| ensures nodes[i].next == At(nodes, i + 1) {
        assert nodes[i] == was[if i < k then i else i + 1];
      }
    }

    static lemma AtCut(nodes: seq<Elem<T>>, k: nat)
      requires k < |nodes|
      ensures forall i: nat :: At(Cut(nodes, k), i) == At(nodes, if i < k then i else i + 1)
    {
    }

    /** The pointers past `e`. */
    method Bypass(p: Elem?<T>, e: Elem<T>, ghost k: nat)
      requires Valid() && k < |nodes| && e == nodes[k] && p == if k > 0 then nodes[k - 1] else null
      modifies this`first, this`last, nodes
      ensures forall e :: e in nodes ==> e.data == old(e.data)
      ensures forall i :: 0 <= i < |nodes| ==> nodes[i].next == At(nodes, if i == k - 1 then k + 1 else i + 1)
      ensures first == At(nodes, if k == 0 then 1 else 0)
      ensures last == if k < |nodes| - 1 then old(last) else p
    {
      hide Data, Distinct;
      DistinctCut(nodes, k);
      if k > 0 {
        DistinctAt(nodes, k - 1);
      }
      if p != null {
        p.next := e.next;
      } else {
        first := e.next;
      }
      if last == e {
        last := p;
        if p != null {
          p.next := null;
        }
      }
    }

    static lemma DistinctAt(nodes: seq<Elem<T>>, k: nat)
      requires Distinct(nodes) && k < |nodes|
      ensures forall i :: 0 <= i < |nodes| && i != k ==> nodes[i] != nodes[k]
    {
    }
  }
}
