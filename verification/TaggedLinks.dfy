/** The vocabulary of the intrusive free list: tagged pointers kept inside the blocks themselves,
    and what it means for a run of blocks to be linked in memory. */
module TaggedLinks {

  /** A pointer stored in a free-list word. A block that a client has overwritten may hold any number. */
  datatype Link = Null | At(block: nat)

  /** The 128-bit word {pointer, tag}. */
  datatype Tagged = Tagged(ptr: Link, tag: nat)

  /** The address check of the pool: the pointer is one of its `n` blocks. */
  predicate Owns(l: Link, n: nat) {
    l.At? && l.block < n
  }

  ghost predicate NoDup<T>(s: seq<T>) {
    forall i, j | 0 <= i < j < |s| :: s[i] != s[j]
  }

  /** The pointer to the i-th block of a list, or `end` past its last block. */
  function LinkTo(blocks: seq<nat>, i: nat, end: Link): Link {
    if i < |blocks| then At(blocks[i]) else end
  }

  function First(blocks: seq<nat>, end: Link): Link {
    LinkTo(blocks, 0, end)
  }

  /** Each block points to the one after it, and the last one to `end`. */
  ghost predicate Linked(mem: seq<Tagged>, blocks: seq<nat>, end: Link) {
    forall i | 0 <= i < |blocks| ::
      blocks[i] < |mem| && mem[blocks[i]].ptr == LinkTo(blocks, i + 1, end)
  }

  /** 0, 1, .., n-1 */
  function Iota(n: nat): (s: seq<nat>)
    ensures |s| == n && forall i | 0 <= i < n :: s[i] == i
  {
    seq(n, i => i)
  }

  /** Memory and a starting pointer determine the whole list. */
  lemma {:induction false} ChainUnique(mem: seq<Tagged>, a: seq<nat>, b: seq<nat>)
    requires Linked(mem, a, Null) && Linked(mem, b, Null) && First(a, Null) == First(b, Null)
    ensures a == b
  {
    if a != [] && b != [] {
      LinkedTail(mem, a, Null);
      LinkedTail(mem, b, Null);
      assert First(a[1..], Null) == mem[a[0]].ptr && First(b[1..], Null) == mem[b[0]].ptr;
      ChainUnique(mem, a[1..], b[1..]);
      assert a == [a[0]] + a[1..] && b == [b[0]] + b[1..];
    }
  }

  /** A list that reaches null visits no block twice, so it is finite and acyclic. */
  lemma ChainAcyclic(mem: seq<Tagged>, a: seq<nat>)
    requires Linked(mem, a, Null)
    ensures NoDup(a)
  {
    forall i, j | 0 <= i < j < |a|
      ensures a[i] != a[j]
    {
      if a[i] == a[j] {
        LinkedSuffix(mem, a, Null, i);
        LinkedSuffix(mem, a, Null, j);
        ChainUnique(mem, a[i..], a[j..]);
        assert false;
      }
    }
  }

  lemma LinkedSuffix(mem: seq<Tagged>, a: seq<nat>, end: Link, k: nat)
    requires Linked(mem, a, end) && k <= |a|
    ensures Linked(mem, a[k..], end)
  {
    forall i | 0 <= i < |a[k..]|
      ensures a[k..][i] < |mem| && mem[a[k..][i]].ptr == LinkTo(a[k..], i + 1, end)
    {
      assert a[k..][i] == a[k + i];
    }
  }

  lemma LinkedTail(mem: seq<Tagged>, a: seq<nat>, end: Link)
    requires Linked(mem, a, end) && a != []
    ensures Linked(mem, a[1..], end) && mem[a[0]].ptr == First(a[1..], end)
  {
    LinkedSuffix(mem, a, end, 1);
    assert mem[a[0]].ptr == LinkTo(a, 1, end);
  }

  lemma LinkedConcat(mem: seq<Tagged>, a: seq<nat>, b: seq<nat>, end: Link)
    requires Linked(mem, a, First(b, end)) && Linked(mem, b, end)
    ensures Linked(mem, a + b, end)
  {
    var c := a + b;
    forall i | 0 <= i < |c|
      ensures c[i] < |mem| && mem[c[i]].ptr == LinkTo(c, i + 1, end)
    {
      if i < |a| {
        assert c[i] == a[i];
      } else {
        var j := i - |a|;
        assert c[i] == b[j];
      }
    }
  }

  /** Writes outside the list leave it linked. */
  lemma LinkedFrame(mem: seq<Tagged>, mem': seq<Tagged>, a: seq<nat>, end: Link)
    requires Linked(mem, a, end) && |mem'| == |mem|
    requires forall i | 0 <= i < |a| :: mem'[a[i]] == mem[a[i]]
    ensures Linked(mem', a, end)
  {
  }

  /** Distinct block numbers below n are at most n. */
  lemma {:induction false} Pigeonhole(s: seq<nat>, n: nat)
    requires NoDup(s) && forall b | b in s :: b < n
    ensures |s| <= n
  {
    if s != [] {
      assert s[0] in s;
      if n - 1 in s {
        var i :| 0 <= i < |s| && s[i] == n - 1;
        var rest := s[..i] + s[i + 1..];
        assert forall j | 0 <= j < |rest| :: rest[j] == s[if j < i then j else j + 1];
        assert forall b | b in rest :: b in s && b != n - 1;
        Pigeonhole(rest, n - 1);
      } else {
        Pigeonhole(s, n - 1);
      }
    }
  }

  /** Appending a fresh free node to a list under construction: null in the new node, then the old tail to it. */
  lemma LinkedSnoc(mem: seq<Tagged>, mem': seq<Tagged>, a: seq<nat>, b: nat)
    requires Linked(mem, a, Null) && NoDup(a) && a != [] && b !in a && b < |mem| == |mem'|
    requires mem'[b].ptr == Null && mem'[a[|a| - 1]].ptr == At(b)
    requires forall i | 0 <= i < |mem| && i != b && i != a[|a| - 1] :: mem'[i] == mem[i]
    ensures Linked(mem', a + [b], Null)
  {
    var c := a + [b];
    forall i | 0 <= i < |c|
      ensures c[i] < |mem'| && mem'[c[i]].ptr == LinkTo(c, i + 1, Null)
    {
      if i < |a| - 1 {
        assert mem[a[i]].ptr == LinkTo(a, i + 1, Null) && a[i] != a[|a| - 1] && a[i] in a;
      }
    }
  }
}
