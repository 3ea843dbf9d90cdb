/** The collision chains of the garbage collector's reference table (inc/gcdata.h). */
module GcTable {
  import opened Memory

  // HTcoll is an array of two-cell links, contents and next; link 0 holds the head of the free list.

  /** A link of HTcoll other than the first. */
  predicate IsLink(coll: seq<Cell>, l: int)
  {
    2 <= l && l % 2 == 0 && l + 1 < |coll|
  }

  /** From `head`, the links of `s` follow each other. */
  ghost predicate Chain(coll: seq<Cell>, head: int, s: seq<int>)
  {
    head == Nth(s, 0) && forall i :: 0 <= i < |s| ==> LinkOk(coll, s, i)
  }

  ghost predicate LinkOk(coll: seq<Cell>, s: seq<int>, i: int)
    requires 0 <= i < |s|
  {
    IsLink(coll, s[i]) && coll[s[i] + 1] == Nth(s, i + 1)
  }

  /** The links in use by one chain, and the free ones, are all different links. */
  ghost predicate TableOk(coll: seq<Cell>, head: int, chain: seq<int>, free: seq<int>)
  {
    |coll| >= 2 && Distinct(chain + free) && Chain(coll, head, chain) && Chain(coll, coll[0], free)
  }

  /** The entries of a chain. */
  ghost function Entries(coll: seq<Cell>, chain: seq<int>): (r: seq<Cell>)
    ensures |r| == |chain|
  {
    seq(|chain|, i requires 0 <= i < |chain| => if IsLink(coll, chain[i]) then coll[chain[i]] else 0)
  }

  function GetLinkptr(entry: Cell): Cell
  {
    entry - entry % 2
  }

  /** "entry | 1" */
  function WithLowBit(entry: Cell): Cell
  {
    if entry % 2 == 1 then entry else entry + 1
  }

  // ---- freeing a link ----

  /** Memory after FreeLink. */
  function Freed(coll: seq<Cell>, link: Cell): seq<Cell>
    requires IsLink(coll, link)
  {
    coll[link := 0][link + 1 := coll[0]][0 := link]
  }

  method FreeLink(coll: array<Cell>, link: Cell)
    requires IsLink(coll[..], link)
    modifies coll
    ensures coll[..] == Freed(old(coll[..]), link)
    ensures coll[link] == 0 && coll[link + 1] == old(coll[0]) && coll[0] == link
    ensures forall a :: 0 < a < coll.Length && a != link && a != link + 1 ==> coll[a] == old(coll[a])
  {
    coll[link] := 0;
    coll[link + 1] := coll[0];
    coll[0] := link;
  }

  /** Clearing a link, and hanging it on the free list, leaves a chain without it alone. */
  lemma FreedElsewhere(coll: seq<Cell>, head: int, s: seq<int>, link: Cell)
    requires Chain(coll, head, s) && IsLink(coll, link) && link !in s
    ensures Chain(Freed(coll, link), head, s)
    ensures forall i :: 0 <= i < |s| ==> IsLink(coll, s[i]) && Freed(coll, link)[s[i]] == coll[s[i]]
  {
    hide Nth;
    var m := Freed(coll, link);
    forall i | 0 <= i < |s|
      ensures LinkOk(m, s, i) && IsLink(coll, s[i]) && m[s[i]] == coll[s[i]]
    {
      assert LinkOk(coll, s, i) && s[i] in s;
    }
  }

  /** A link off the chain goes to the front of the free list; the chain stays. */
  lemma FreeOne(coll: seq<Cell>, head: int, chain: seq<int>, free: seq<int>, link: Cell)
    requires TableOk(coll, head, chain, free) && IsLink(coll, link)
    requires link !in chain && link !in free
    ensures TableOk(Freed(coll, link), head, chain, [link] + free)
    ensures forall i :: 0 <= i < |chain| ==> IsLink(coll, chain[i])
    ensures Entries(Freed(coll, link), chain) == Entries(coll, chain)
  {
    hide Distinct;
    var m, f := Freed(coll, link), [link] + free;
    FreedElsewhere(coll, head, chain, link);
    FreedElsewhere(coll, coll[0], free, link);
    forall i | 0 <= i < |f|
      ensures LinkOk(m, f, i)
    {
      if i > 0 {
        assert LinkOk(m, free, i - 1) && f[i] == free[i - 1];
      }
    }
    DistinctMoved(chain, free, link);
  }

  lemma DistinctMoved(chain: seq<int>, free: seq<int>, link: int)
    requires Distinct(chain + free) && link !in chain && link !in free
    ensures Distinct(chain + ([link] + free))
  {
    var s, t := chain + free, chain + ([link] + free);
    var n := |chain|;
    forall i, j | 0 <= i < j < |t|
      ensures t[i] != t[j]
    {
      if i < n {
        assert t[i] == s[i];
      } else if i > n {
        assert t[i] == s[i - 1];
      }
      if j < n {
        assert t[j] == s[j];
      } else if j > n {
        assert t[j] == s[j - 1];
      }
    }
  }

  // ---- taking a link off a chain ----

  /** Memory relinked past place `i` of the chain. */
  function Relinked(coll: seq<Cell>, chain: seq<int>, i: int): (m: seq<Cell>)
    requires 0 <= i < |chain| && IsLink(coll, chain[i]) && (i > 0 ==> IsLink(coll, chain[i - 1]))
    ensures |m| == |coll|
  {
    if i > 0 then coll[chain[i - 1] + 1 := coll[chain[i] + 1]] else coll
  }

  lemma RestLinkAt(coll: seq<Cell>, head: int, chain: seq<int>, i: int, j: int)
    requires Chain(coll, head, chain) && Distinct(chain) && 0 <= i < |chain| && 0 <= j < |Dropped(chain, i)|
    ensures IsLink(coll, chain[i]) && (i > 0 ==> IsLink(coll, chain[i - 1]))
    ensures IsLink(coll, Dropped(chain, i)[j])
    ensures Relinked(coll, chain, i)[Dropped(chain, i)[j]] == coll[Dropped(chain, i)[j]]
    ensures LinkOk(Relinked(coll, chain, i), Dropped(chain, i), j)
  {
    hide Chain, Distinct;
    LinkAt(coll, head, chain, i);
    var from := if j < i then j else j + 1;
    LinkAt(coll, head, chain, from);
    assert Dropped(chain, i)[j] == chain[from];
    if i > 0 {
      LinkAt(coll, head, chain, i - 1);
      DifferAt(chain, from, i - 1);
    }
  }

  lemma LinkAt(coll: seq<Cell>, head: int, chain: seq<int>, i: int)
    requires Chain(coll, head, chain) && 0 <= i < |chain|
    ensures LinkOk(coll, chain, i) && head == Nth(chain, 0)
  {
    hide LinkOk;
  }

  lemma RestLinked(coll: seq<Cell>, head: int, chain: seq<int>, i: int)
    requires Chain(coll, head, chain) && Distinct(chain) && 0 <= i < |chain|
    ensures IsLink(coll, chain[i]) && (i > 0 ==> IsLink(coll, chain[i - 1]))
    ensures Chain(Relinked(coll, chain, i), if i > 0 then head else Nth(chain, 1), Dropped(chain, i))
    ensures forall j :: 0 <= j < |Dropped(chain, i)| ==>
        IsLink(coll, Dropped(chain, i)[j]) &&
            Relinked(coll, chain, i)[Dropped(chain, i)[j]] == coll[Dropped(chain, i)[j]]
  {
    hide Distinct, LinkOk, Relinked;
    LinkAt(coll, head, chain, i);
    LinkIsLink(coll, chain, i);
    if i > 0 {
      LinkAt(coll, head, chain, i - 1);
      LinkIsLink(coll, chain, i - 1);
    }
    forall j | 0 <= j < |Dropped(chain, i)|
      ensures LinkOk(Relinked(coll, chain, i), Dropped(chain, i), j)
      ensures IsLink(coll, Dropped(chain, i)[j])
      ensures Relinked(coll, chain, i)[Dropped(chain, i)[j]] == coll[Dropped(chain, i)[j]]
    {
      RestLinkAt(coll, head, chain, i, j);
    }
  }

  lemma LinkIsLink(coll: seq<Cell>, chain: seq<int>, i: int)
    requires 0 <= i < |chain| && LinkOk(coll, chain, i)
    ensures IsLink(coll, chain[i])
  {
  }

  lemma DifferAt(s: seq<int>, i: int, j: int)
    requires Distinct(s) && 0 <= i < |s| && 0 <= j < |s|
    ensures s[i] == s[j] <==> i == j
  {
  }

  /** Writing the link field of one link leaves a chain without it alone. */
  lemma OtherChain(coll: seq<Cell>, head: int, s: seq<int>, link: int, v: Cell)
    requires Chain(coll, head, s) && IsLink(coll, link) && link !in s
    ensures Chain(coll[link + 1 := v], head, s)
  {
    var m := coll[link + 1 := v];
    forall i | 0 <= i < |s|
      ensures LinkOk(m, s, i)
    {
      assert LinkOk(coll, s, i) && s[i] in s;
    }
  }

  /** The chain without place `i`, all other entries in place, and the free list as it was. */
  lemma Unlinked(coll: seq<Cell>, head: int, chain: seq<int>, free: seq<int>, i: int)
    requires TableOk(coll, head, chain, free) && 0 <= i < |chain|
    ensures IsLink(coll, chain[i]) && (i > 0 ==> IsLink(coll, chain[i - 1]))
    ensures forall j :: 0 <= j < |chain| ==> IsLink(coll, chain[j])
    ensures forall j :: 0 <= j < |Dropped(chain, i)| ==> IsLink(coll, Dropped(chain, i)[j])
    ensures TableOk(Relinked(coll, chain, i), if i > 0 then head else Nth(chain, 1), Dropped(chain, i), free)
    ensures Entries(Relinked(coll, chain, i), Dropped(chain, i)) == Entries(coll, Dropped(chain, i))
    ensures chain[i] !in Dropped(chain, i) && chain[i] !in free
  {
    hide Distinct, Chain, Dropped;
    DistinctParts(chain, free);
    ChainLinks(coll, head, chain);
    RestLinked(coll, head, chain, i);
    DistinctRest(chain, free, i);
    if i > 0 {
      DistinctRest(chain, free, i - 1);
      OtherChain(coll, coll[0], free, chain[i - 1], coll[chain[i] + 1]);
    }
  }

  lemma ChainLinks(coll: seq<Cell>, head: int, s: seq<int>)
    requires Chain(coll, head, s)
    ensures forall j :: 0 <= j < |s| ==> IsLink(coll, s[j])
  {
    forall j | 0 <= j < |s|
      ensures IsLink(coll, s[j])
    {
      assert LinkOk(coll, s, j);
    }
  }

  lemma DistinctParts(a: seq<int>, b: seq<int>)
    requires Distinct(a + b)
    ensures Distinct(a) && Distinct(b)
  {
    forall i, j | 0 <= i < j < |a|
      ensures a[i] != a[j]
    {
      assert (a + b)[i] == a[i] && (a + b)[j] == a[j];
    }
    forall i, j | 0 <= i < j < |b|
      ensures b[i] != b[j]
    {
      assert (a + b)[|a| + i] == b[i] && (a + b)[|a| + j] == b[j];
    }
  }

  lemma DistinctRest(chain: seq<int>, free: seq<int>, i: int)
    requires Distinct(chain + free) && 0 <= i < |chain|
    ensures Distinct(Dropped(chain, i) + free) && chain[i] !in Dropped(chain, i) && chain[i] !in free
  {
    var s, t := chain + free, Dropped(chain, i) + free;
    forall j | 0 <= j < |t|
      ensures t[j] == s[if j < i then j else j + 1]
    {
    }
    assert s[i] == chain[i];
    forall j | 0 <= j < |free|
      ensures free[j] != chain[i]
    {
      assert free[j] == s[|chain| + j];
    }
    forall j | 0 <= j < |Dropped(chain, i)|
      ensures Dropped(chain, i)[j] != chain[i]
    {
      assert Dropped(chain, i)[j] == t[j];
    }
  }

  /** What is left in the main table: a chain of two or more, or one entry by itself. */
  ghost predicate Left(coll: seq<Cell>, entry: Cell, rest: seq<int>, entries: seq<Cell>, free: seq<int>)
  {
    if |entries| >= 2 then
      entry % 2 == 1 && TableOk(coll, GetLinkptr(entry), rest, free) && Entries(coll, rest) == entries
    else
      entries == [entry] && rest == [] && TableOk(coll, 0, [], free)
  }

  /** DelLink on a chain of two or more: exactly that entry goes, and links are neither lost nor made. */
  method DelLink(htmain: array<Cell>, coll: array<Cell>, link: Cell, prev: int, e: int, ghost chain: seq<int>,
                 ghost free: seq<int>, ghost i: int)
    returns (ghost rest: seq<int>, ghost free': seq<int>)
    requires htmain != coll && 0 <= e < htmain.Length && coll.Length < 0x1_0000_0000
    requires htmain[e] % 2 == 1 && |chain| >= 2 && TableOk(coll[..], GetLinkptr(htmain[e]), chain, free)
    requires 0 <= i < |chain| && link == chain[i] && prev == if i > 0 then chain[i - 1] else 0
    modifies htmain, coll
    ensures forall k :: 0 <= k < htmain.Length && k != e ==> htmain[k] == old(htmain[k])
    ensures Left(coll[..], htmain[e], rest, Dropped(Entries(old(coll[..]), chain), i), free')
    ensures multiset(rest) + multiset(free') == multiset(chain) + multiset(free)
    ensures 2 <= link && link + 1 < coll.Length && coll[link] == 0
    ensures forall l :: l in free' && l !in free ==> 2 <= l && l + 1 < coll.Length && coll[l] == 0
  {
    hide TableOk, Entries, Chain, Freed, Distinct, Left, Dropped;
    ghost var m0, head := coll[..], GetLinkptr(htmain[e]);
    LinkIs(m0, head, chain, free, i);
    LinkTaken(m0, head, chain, free, i);
    if prev != 0 {
      coll[prev + 1] := coll[link + 1];
    } else {
      htmain[e] := WithLowBit(coll[link + 1]);
    }
    assert coll[..] == Relinked(m0, chain, i);
    FreeLink(coll, link);
    rest, free' := InlineLast(htmain, coll, e, Dropped(chain, i), [link] + free);
  }

  /** The link at place `i` relinked past and freed. */
  lemma LinkTaken(m0: seq<Cell>, head: int, chain: seq<int>, free: seq<int>, i: int)
    requires TableOk(m0, head, chain, free) && 0 <= i < |chain| && |m0| < 0x1_0000_0000
    ensures IsLink(m0, chain[i]) && (i > 0 ==> IsLink(m0, chain[i - 1]))
    ensures |Dropped(chain, i)| == |chain| - 1 == |Dropped(Entries(m0, chain), i)|
    ensures var m := Freed(Relinked(m0, chain, i), chain[i]);
        && TableOk(m, if i > 0 then head else Nth(chain, 1), Dropped(chain, i), [chain[i]] + free)
        && Entries(m, Dropped(chain, i)) == Dropped(Entries(m0, chain), i)
    ensures multiset(Dropped(chain, i)) + multiset([chain[i]] + free) == multiset(chain) + multiset(free)
  {
    hide TableOk, Entries, Chain, Freed, Distinct, Relinked;
    Unlinked(m0, head, chain, free, i);
    SameEntries(m0, chain, i);
    FreeOne(Relinked(m0, chain, i), if i > 0 then head else Nth(chain, 1), Dropped(chain, i), free, chain[i]);
    assert chain == chain[..i] + [chain[i]] + chain[i + 1..];
  }

  /** The second half of DelLink: a chain of one becomes an entry by itself. */
  method InlineLast(htmain: array<Cell>, coll: array<Cell>, e: int, ghost left: seq<int>, ghost free: seq<int>)
    returns (ghost rest: seq<int>, ghost free': seq<int>)
    requires htmain != coll && 0 <= e < htmain.Length && left != []
    requires htmain[e] % 2 == 1 && TableOk(coll[..], GetLinkptr(htmain[e]), left, free)
    modifies htmain, coll
    ensures forall k :: 0 <= k < htmain.Length && k != e ==> htmain[k] == old(htmain[k])
    ensures Left(coll[..], htmain[e], rest, Entries(old(coll[..]), left), free')
    ensures multiset(rest) + multiset(free') == multiset(left) + multiset(free)
    ensures forall l :: l in free ==> IsLink(coll[..], l) && coll[l] == old(coll[l])
    ensures forall l :: l in free' && l !in free ==> IsLink(coll[..], l) && coll[l] == 0
  {
    hide TableOk, Chain, Freed, Distinct;
    FreeLinks(coll[..], GetLinkptr(htmain[e]), left, free);
    ghost var m := coll[..];
    var first := GetLinkptr(htmain[e]);
    FirstIs(m, first, left, free);
    if coll[first + 1] == 0 {
      Unlinked(m, first, left, free, 0);
      FreeOne(m, 0, Dropped(left, 0), free, first);
      htmain[e] := coll[first];
      FreeLink(coll, first);
      rest, free' := [], [first] + free;
      assert left == [first] && Dropped(left, 0) == [];
    } else {
      rest, free' := left, free;
    }
  }

  /** The free links are links, and not those in use. */
  lemma FreeLinks(coll: seq<Cell>, head: int, chain: seq<int>, free: seq<int>)
    requires TableOk(coll, head, chain, free)
    ensures forall l :: l in free ==> IsLink(coll, l) && l !in chain
  {
    hide Distinct, Chain;
    forall l | l in free
      ensures IsLink(coll, l) && l !in chain
    {
      var i :| 0 <= i < |free| && free[i] == l;
      LinkAt(coll, coll[0], free, i);
      if l in chain {
        var j :| 0 <= j < |chain| && chain[j] == l;
        DifferAt(chain + free, j, |chain| + i);
      }
    }
  }

  lemma LinkIs(coll: seq<Cell>, head: int, chain: seq<int>, free: seq<int>, i: int)
    requires TableOk(coll, head, chain, free) && 0 <= i < |chain|
    ensures IsLink(coll, chain[i]) && coll[chain[i] + 1] == Nth(chain, i + 1)
    ensures i > 0 ==> IsLink(coll, chain[i - 1])
    ensures i + 1 < |chain| ==> IsLink(coll, chain[i + 1])
  {
    hide Distinct;
    assert LinkOk(coll, chain, i) && (i > 0 ==> LinkOk(coll, chain, i - 1));
    assert i + 1 < |chain| ==> LinkOk(coll, chain, i + 1);
  }

  lemma FirstIs(coll: seq<Cell>, head: int, chain: seq<int>, free: seq<int>)
    requires TableOk(coll, head, chain, free) && chain != []
    ensures head == chain[0] && IsLink(coll, head) && (coll[head + 1] == 0 <==> |chain| == 1)
  {
    hide Distinct;
    assert LinkOk(coll, chain, 0) && (|chain| > 1 ==> LinkOk(coll, chain, 1));
  }

  lemma SameEntries(coll: seq<Cell>, chain: seq<int>, i: int)
    requires 0 <= i < |chain|
    ensures Entries(coll, Dropped(chain, i)) == Dropped(Entries(coll, chain), i)
  {
  }
}
