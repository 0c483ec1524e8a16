/** The sift operations of Go's container/heap on the TTL entries, as functions of the entry sequence,
    with the order facts the TTL heap needs (internal/reconcile/ttl_heap.go:25-51). */
module HeapOrder {
  import opened Ordering
  import Sorting

  datatype Entry = Entry(id: string, expiry: int)

  /** `ttlHeapItems.Less`: earlier expiry first, equal expiries by sandbox ID. */
  predicate Before(a: Entry, b: Entry) {
    if a.expiry == b.expiry then Less(a.id, b.id) else a.expiry < b.expiry
  }

  lemma BeforeIrreflexive(a: Entry)
    ensures !Before(a, a)
  {
    LessIrreflexive(a.id);
  }

  lemma BeforeTransitive(a: Entry, b: Entry, c: Entry)
    requires Before(a, b) && Before(b, c)
    ensures Before(a, c)
  {
    if a.expiry == b.expiry == c.expiry {
      LessTransitive(a.id, b.id, c.id);
    }
  }

  lemma BeforeTotal(a: Entry, b: Entry)
    ensures a == b || Before(a, b) || Before(b, a)
  {
    LessTotal(a.id, b.id);
  }

  /** `!Before(c, b)` and `!Before(b, a)` give `!Before(c, a)`. */
  lemma NotBeforeTransitive(a: Entry, b: Entry, c: Entry)
    requires !Before(b, a) && !Before(c, b)
    ensures !Before(c, a)
  {
    BeforeTotal(a, b);
    BeforeTotal(b, c);
    if Before(c, a) {
      BeforeIrreflexive(a);
      if Before(a, b) {
        BeforeTransitive(c, a, b);
      }
    }
  }

  lemma BeforeAsymmetric(a: Entry, b: Entry)
    requires Before(a, b)
    ensures !Before(b, a)
  {
    if Before(b, a) {
      BeforeTransitive(a, b, a);
      BeforeIrreflexive(a);
    }
  }

  lemma BeforeIsTotal()
    ensures Sorting.Total(Before)
  {
    forall a, b | Before(a, b)
      ensures !Before(b, a)
    {
      BeforeAsymmetric(a, b);
    }
    forall a, b, c | Before(a, b) && Before(b, c)
      ensures Before(a, c)
    {
      BeforeTransitive(a, b, c);
    }
    forall a, b
      ensures a == b || Before(a, b) || Before(b, a)
    {
      BeforeTotal(a, b);
    }
  }

  function Parent(k: int): int
    requires k > 0
  {
    (k - 1) / 2
  }

  /** Element k is not before its parent. */
  predicate Edge(s: seq<Entry>, k: int)
    requires 0 < k < |s|
  {
    !Before(s[k], s[Parent(k)])
  }

  /** The first n entries form a heap. */
  predicate Heap(s: seq<Entry>, n: nat)
    requires n <= |s|
  {
    forall k :: 0 < k < n ==> Edge(s, k)
  }

  /** Below i everything already respects the parent of i. */
  predicate Bridged(s: seq<Entry>, n: nat, i: nat)
    requires n <= |s|
  {
    forall k :: 0 < k < n && i > 0 && Parent(k) == i ==> !Before(s[k], s[Parent(i)])
  }

  /** A heap except that the entry at i may be too large or too small. */
  predicate HoleAt(s: seq<Entry>, n: nat, i: nat)
    requires n <= |s|
  {
    && (forall k :: 0 < k < n && k != i && Parent(k) != i ==> Edge(s, k))
    && Bridged(s, n, i)
  }

  /** A heap except that the entry at i may be too small. */
  predicate LightAt(s: seq<Entry>, n: nat, i: nat)
    requires n <= |s|
  {
    && (forall k :: 0 < k < n && k != i ==> Edge(s, k))
    && Bridged(s, n, i)
  }

  function Swapped(s: seq<Entry>, i: nat, j: nat): seq<Entry>
    requires i < |s| && j < |s|
  {
    s[i := s[j]][j := s[i]]
  }

  lemma SwappedMultiset(s: seq<Entry>, i: nat, j: nat)
    requires i < |s| && j < |s|
    ensures multiset(Swapped(s, i, j)) == multiset(s)
  {
  }

  /** container/heap `up`. */
  function Up(s: seq<Entry>, j: nat): seq<Entry>
    requires j < |s|
    decreases j
  {
    if j == 0 || !Before(s[j], s[Parent(j)]) then s
    else Up(Swapped(s, j, Parent(j)), Parent(j))
  }

  /** The child `down` compares with, when there is one below n. */
  function Child(s: seq<Entry>, i: nat, n: nat): nat
    requires 2 * i + 1 < n <= |s|
  {
    if 2 * i + 2 < n && Before(s[2 * i + 2], s[2 * i + 1]) then 2 * i + 2 else 2 * i + 1
  }

  predicate Sinks(s: seq<Entry>, i: nat, n: nat)
    requires i < n <= |s| || (i == n && n <= |s|)
  {
    2 * i + 1 < n && Before(s[Child(s, i, n)], s[i])
  }

  /** container/heap `down` on the first n entries. */
  function Down(s: seq<Entry>, i: nat, n: nat): seq<Entry>
    requires i <= n <= |s|
    decreases n - i
  {
    if !Sinks(s, i, n) then s
    else Down(Swapped(s, i, Child(s, i, n)), Child(s, i, n), n)
  }

  /** container/heap `Fix` on the first n entries. */
  function Fixed(s: seq<Entry>, i: nat, n: nat): seq<Entry>
    requires i < n <= |s|
  {
    if Sinks(s, i, n) then Down(s, i, n) else Up(s, i)
  }

  lemma {:induction false} UpKeeps(s: seq<Entry>, j: nat)
    requires j < |s|
    ensures |Up(s, j)| == |s| && multiset(Up(s, j)) == multiset(s)
    ensures Up(s, j)[j+1..] == s[j+1..]
    decreases j
  {
    if j != 0 && Before(s[j], s[Parent(j)]) {
      var t := Swapped(s, j, Parent(j));
      SwappedMultiset(s, j, Parent(j));
      UpKeeps(t, Parent(j));
      assert Up(s, j)[j+1..] == Up(t, Parent(j))[Parent(j)+1..][j - Parent(j)..];
      assert t[j+1..] == t[Parent(j)+1..][j - Parent(j)..];
      assert t[j+1..] == s[j+1..];
    }
  }

  lemma {:induction false} DownKeeps(s: seq<Entry>, i: nat, n: nat)
    requires i <= n <= |s|
    ensures |Down(s, i, n)| == |s| && multiset(Down(s, i, n)) == multiset(s)
    ensures Down(s, i, n)[n..] == s[n..]
    decreases n - i
  {
    if Sinks(s, i, n) {
      var c := Child(s, i, n);
      SwappedMultiset(s, i, c);
      DownKeeps(Swapped(s, i, c), c, n);
      assert Swapped(s, i, c)[n..] == s[n..];
    }
  }

  /** Moving a too small entry one level up keeps the heap a heap except at the new place. */
  lemma UpStep(s: seq<Entry>, j: nat, n: nat)
    requires 0 < j < n <= |s| && LightAt(s, n, j) && Before(s[j], s[Parent(j)])
    ensures LightAt(Swapped(s, j, Parent(j)), n, Parent(j))
  {
    var p := Parent(j);
    var t := Swapped(s, j, p);
    forall k | 0 < k < n && k != p
      ensures Edge(t, k)
    {
      if k == j {
        BeforeAsymmetric(s[j], s[p]);
      } else if Parent(k) == p {
        assert Edge(s, k);
        BeforeAsymmetric(s[j], s[p]);
        NotBeforeTransitive(s[j], s[p], s[k]);
      } else if Parent(k) == j {
        assert !Before(s[k], s[p]);
      } else {
        assert Edge(s, k);
      }
    }
    forall k | 0 < k < n && p > 0 && Parent(k) == p
      ensures !Before(t[k], t[Parent(p)])
    {
      assert Edge(s, p);
      if k != j {
        assert Edge(s, k);
        NotBeforeTransitive(s[Parent(p)], s[p], s[k]);
      }
    }
  }

  lemma {:induction false} UpRestores(s: seq<Entry>, j: nat, n: nat)
    requires j < n <= |s| && LightAt(s, n, j)
    ensures |Up(s, j)| == |s| && Heap(Up(s, j), n)
    decreases j
  {
    UpKeeps(s, j);
    if j != 0 && Before(s[j], s[Parent(j)]) {
      UpStep(s, j, n);
      UpRestores(Swapped(s, j, Parent(j)), Parent(j), n);
    }
  }

  /** Moving a too large entry one level down leaves the hole at the chosen child, and the entry that
      came up respects everything around it. */
  lemma DownStep(s: seq<Entry>, i: nat, n: nat)
    requires i < n <= |s| && HoleAt(s, n, i) && Sinks(s, i, n)
    ensures var c := Child(s, i, n);
            HoleAt(Swapped(s, i, c), n, c) && Edge(Swapped(s, i, c), c)
  {
    var c := Child(s, i, n);
    var t := Swapped(s, i, c);
    BeforeAsymmetric(s[c], s[i]);
    forall k | 0 < k < n && k != c && Parent(k) != c
      ensures Edge(t, k)
    {
      if k == i {
        assert !Before(s[c], s[Parent(i)]);
      } else if Parent(k) == i {
        // the sibling of c
        if c == 2 * i + 2 {
          BeforeAsymmetric(s[c], s[k]);
        }
      } else {
        assert Edge(s, k);
      }
    }
    forall k | 0 < k < n && c > 0 && Parent(k) == c
      ensures !Before(t[k], t[Parent(c)])
    {
      assert Edge(s, k);
    }
  }

  /** With the edge above i already right, `down` ends in a heap. */
  lemma {:induction false} DownRestores(s: seq<Entry>, i: nat, n: nat)
    requires i < n <= |s| && HoleAt(s, n, i) && (i > 0 ==> Edge(s, i))
    ensures |Down(s, i, n)| == |s| && Heap(Down(s, i, n), n)
    decreases n - i
  {
    DownKeeps(s, i, n);
    if Sinks(s, i, n) {
      DownStep(s, i, n);
      DownRestores(Swapped(s, i, Child(s, i, n)), Child(s, i, n), n);
    } else {
      StuckIsLight(s, i, n);
    }
  }

  /** An entry that does not sink can only be too small. */
  lemma StuckIsLight(s: seq<Entry>, i: nat, n: nat)
    requires i < n <= |s| && HoleAt(s, n, i) && !Sinks(s, i, n)
    ensures LightAt(s, n, i)
  {
    forall k | 0 < k < n && k != i && Parent(k) == i
      ensures Edge(s, k)
    {
      var c := Child(s, i, n);
      if k != c {
        if c == 2 * i + 2 {
          BeforeAsymmetric(s[c], s[k]);
        }
        NotBeforeTransitive(s[i], s[c], s[k]);
      }
    }
  }

  /** `Fix` repairs an arbitrary change of one entry. */
  lemma FixRestores(s: seq<Entry>, i: nat, n: nat)
    requires i < n <= |s| && HoleAt(s, n, i)
    ensures |Fixed(s, i, n)| == |s| && Heap(Fixed(s, i, n), n)
    ensures multiset(Fixed(s, i, n)) == multiset(s) && Fixed(s, i, n)[n..] == s[n..]
  {
    if Sinks(s, i, n) {
      DownStep(s, i, n);
      DownRestores(Swapped(s, i, Child(s, i, n)), Child(s, i, n), n);
      DownKeeps(s, i, n);
    } else {
      StuckIsLight(s, i, n);
      UpRestores(s, i, n);
      UpKeeps(s, i);
      assert Up(s, i)[n..] == Up(s, i)[i+1..][n-i-1..];
    }
  }

  /** In a heap an arbitrary replacement leaves at most a hole. */
  lemma ReplacedHole(s: seq<Entry>, n: nat, i: nat, e: Entry)
    requires i < n <= |s| && Heap(s, n)
    ensures HoleAt(s[i := e], n, i)
  {
    var t := s[i := e];
    forall k | 0 < k < n && k != i && Parent(k) != i
      ensures Edge(t, k)
    {
      assert Edge(s, k);
    }
    forall k | 0 < k < n && i > 0 && Parent(k) == i
      ensures !Before(t[k], t[Parent(i)])
    {
      assert Edge(s, k) && Edge(s, i);
      NotBeforeTransitive(s[Parent(i)], s[i], s[k]);
    }
  }

  lemma ShorterHeap(s: seq<Entry>, n: nat, m: nat)
    requires m <= n <= |s| && Heap(s, n)
    ensures Heap(s, m)
  {
    forall k | 0 < k < m
      ensures Edge(s, k)
    {
      assert 0 < k < n;
    }
  }

  /** The root of a heap is not after any entry. */
  lemma {:induction false} RootIsLeast(s: seq<Entry>, n: nat, k: nat)
    requires k < n <= |s| && Heap(s, n)
    ensures !Before(s[k], s[0])
    decreases k
  {
    if k == 0 {
      BeforeIrreflexive(s[0]);
    } else {
      assert Edge(s, k);
      RootIsLeast(s, n, Parent(k));
      NotBeforeTransitive(s[0], s[Parent(k)], s[k]);
    }
  }

  // ---------- container/heap Push, Remove and Pop ----------

  function WithPushed(s: seq<Entry>, e: Entry): seq<Entry> {
    Up(s + [e], |s|)
  }

  lemma PushRestores(s: seq<Entry>, e: Entry)
    requires Heap(s, |s|)
    ensures var t := WithPushed(s, e); |t| == |s| + 1 && Heap(t, |t|) && multiset(t) == multiset(s) + multiset{e}
  {
    var t := s + [e];
    forall k | 0 < k < |t| && k != |s|
      ensures Edge(t, k)
    {
      assert Edge(s, k);
    }
    UpRestores(t, |s|, |t|);
    UpKeeps(t, |s|);
  }

  /** container/heap `Remove` up to the cut: swap with the last, repair the first n-1. */
  function BeforeCut(s: seq<Entry>, i: nat): seq<Entry>
    requires i < |s|
  {
    if i == |s| - 1 then s else Fixed(Swapped(s, i, |s| - 1), i, |s| - 1)
  }

  function WithRemoved(s: seq<Entry>, i: nat): seq<Entry>
    requires i < |s|
  {
    var t := BeforeCut(s, i);
    if |t| == |s| then t[..|s|-1] else []
  }

  /** `t` is a heap of everything in `s` but one `x`. */
  predicate WithoutOne(s: seq<Entry>, x: Entry, t: seq<Entry>) {
    |t| == |s| - 1 && Heap(t, |t|) && multiset(t) + multiset{x} == multiset(s)
  }

  lemma RemoveRestores(s: seq<Entry>, i: nat)
    requires i < |s| && Heap(s, |s|)
    ensures WithoutOne(s, s[i], WithRemoved(s, i))
  {
    ShorterHeap(s, |s|, |s| - 1);
    if i == |s| - 1 {
      assert s == WithRemoved(s, i) + [s[i]];
      HeapOfPrefix(s, i);
    } else {
      RepairedInner(s, i);
      CutRestores(s, Fixed(Swapped(s, i, |s| - 1), i, |s| - 1), s[i]);
    }
  }

  /** The swap and the repair, before the cut. */
  lemma RepairedInner(s: seq<Entry>, i: nat)
    requires i < |s| - 1 && Heap(s, |s| - 1)
    ensures var f := Fixed(Swapped(s, i, |s| - 1), i, |s| - 1);
            |f| == |s| && multiset(f) == multiset(s) && Heap(f, |s| - 1) && f[|s| - 1..] == [s[i]]
  {
    var n := |s| - 1;
    ReplacedHole(s, n, i, s[n]);
    HoleOfSwap(s, n, i);
    FixRestores(Swapped(s, i, n), i, n);
    SwappedMultiset(s, i, n);
  }

  /** Cutting the last entry off a rearrangement of s whose front is a heap. */
  lemma CutRestores(s: seq<Entry>, f: seq<Entry>, last: Entry)
    requires |f| == |s| > 0 && multiset(f) == multiset(s) && Heap(f, |s| - 1) && f[|s| - 1..] == [last]
    ensures WithoutOne(s, last, f[..|s| - 1])
  {
    assert f == f[..|s| - 1] + [last];
    HeapOfPrefix(f, |s| - 1);
  }

  lemma HeapOfPrefix(s: seq<Entry>, n: nat)
    requires n <= |s| && Heap(s, n)
    ensures Heap(s[..n], n)
  {
    forall k | 0 < k < n
      ensures Edge(s[..n], k)
    {
      assert Edge(s, k);
    }
  }

  lemma HoleOfSwap(s: seq<Entry>, n: nat, i: nat)
    requires i < n == |s| - 1 && HoleAt(s[i := s[n]], n, i)
    ensures HoleAt(Swapped(s, i, n), n, i)
  {
    var t := s[i := s[n]];
    var w := Swapped(s, i, n);
    assert forall k :: 0 <= k < n ==> w[k] == t[k];
    forall k | 0 < k < n && k != i && Parent(k) != i
      ensures Edge(w, k)
    {
      assert Edge(t, k);
    }
    forall k | 0 < k < n && i > 0 && Parent(k) == i
      ensures !Before(w[k], w[Parent(i)])
    {
      assert !Before(t[k], t[Parent(i)]);
    }
  }
}
