// Doubly linked free lists as values: the heads, the next and prev fields by
// atom, and the sequences of atoms that they are meant to spell.
module FreeLists {

  /** The element at position j of a list, or -1 past either end. */
  function At(s: seq<nat>, j: int): int {
    if 0 <= j < |s| then s[j] else -1
  }

  /** The fields spell the list s, forwards from first and backwards. */
  ghost predicate Chain(s: seq<nat>, first: int, next: seq<int>, prev: seq<int>) {
    && |next| == |prev|
    && first == At(s, 0)
    && (forall j: nat | j < |s| :: s[j] < |next|)
    && (forall j: nat {:trigger next[s[j]]} {:trigger prev[s[j]]} | j < |s| ::
          next[s[j]] == At(s, j + 1) && prev[s[j]] == At(s, j - 1))
  }

  ghost predicate NoRepeat(s: seq<nat>) {
    forall j, j' | 0 <= j < |s| && 0 <= j' < |s| && s[j] == s[j'] :: j == j'
  }

  /** No atom is in two lists. */
  ghost predicate Apart(lists: seq<seq<nat>>) {
    forall k, k', x: nat | 0 <= k < |lists| && 0 <= k' < |lists| && x in lists[k] && x in lists[k'] :: k == k'
  }

  ghost predicate Chains(lists: seq<seq<nat>>, first: seq<int>, next: seq<int>, prev: seq<int>) {
    && |lists| == |first|
    && Apart(lists)
    && forall k | 0 <= k < |lists| :: NoRepeat(lists[k]) && Chain(lists[k], first[k], next, prev)
  }

  function Without(s: seq<nat>, p: nat): seq<nat>
    requires p < |s|
  {
    s[..p] + s[p + 1..]
  }

  lemma WithoutAt(s: seq<nat>, p: nat, j: int)
    requires p < |s|
    ensures At(Without(s, p), j) == if j < p then At(s, j) else At(s, j + 1)
  {
  }

  lemma WithoutMembers(s: seq<nat>, p: nat)
    requires p < |s| && NoRepeat(s)
    ensures forall x: nat :: x in Without(s, p) <==> x in s && x != s[p]
    ensures NoRepeat(Without(s, p))
  {
    var t := Without(s, p);
    forall x: nat ensures x in t <==> x in s && x != s[p] {
      if x in s && x != s[p] {
        var j :| 0 <= j < |s| && s[j] == x;
        assert t[if j < p then j else j - 1] == x;
      }
    }
  }

  /** A chain does not see updates at atoms outside it. */
  lemma ChainFrame(s: seq<nat>, first: int, next: seq<int>, prev: seq<int>, next': seq<int>, prev': seq<int>)
    requires Chain(s, first, next, prev) && |next'| == |prev'| == |next|
    requires forall x: nat | x in s && x < |next| :: next'[x] == next[x] && prev'[x] == prev[x]
    ensures Chain(s, first, next', prev')
  {
  }

  lemma LinkChain(s: seq<nat>, first: int, next: seq<int>, prev: seq<int>, i: nat)
    requires Chain(s, first, next, prev) && NoRepeat(s) && i !in s && i < |next|
    ensures NoRepeat([i] + s)
    ensures first >= 0 ==> first < |prev|
    ensures Chain([i] + s, i, next[i := first], if first >= 0 then prev[i := -1][first := i] else prev[i := -1])
  {
    var t := [i] + s;
    forall j: nat | j < |t|
      ensures t[j] == if j == 0 then i else s[j - 1]
    {
    }
  }

  /** Pushing an atom on list k. */
  lemma LinkKeeps(lists: seq<seq<nat>>, first: seq<int>, next: seq<int>, prev: seq<int>, i: nat, k: nat)
    requires Chains(lists, first, next, prev) && k < |lists| && i < |next|
    requires forall k' | 0 <= k' < |lists| :: i !in lists[k']
    ensures first[k] >= 0 ==> first[k] < |prev|
    ensures Chains(lists[k := [i] + lists[k]], first[k := i], next[i := first[k]],
                   if first[k] >= 0 then prev[i := -1][first[k] := i] else prev[i := -1])
  {
    assert Chain(lists[k], first[k], next, prev);
    LinkChain(lists[k], first[k], next, prev, i);
    var next' := next[i := first[k]];
    var prev' := if first[k] >= 0 then prev[i := -1][first[k] := i] else prev[i := -1];
    var lists' := lists[k := [i] + lists[k]];
    assert first[k] >= 0 ==> lists[k][0] in lists[k];
    forall k' | 0 <= k' < |lists| && k' != k ensures Chain(lists'[k'], first[k := i][k'], next', prev') {
      ChainFrame(lists[k'], first[k'], next, prev, next', prev');
    }
    forall m, m', x: nat | 0 <= m < |lists| && 0 <= m' < |lists| && x in lists'[m] && x in lists'[m'] ensures m == m' {
      assert x != i ==> x in lists[m] && x in lists[m'];
    }
  }

  /** The next fields after atom i has been bypassed. */
  function UnlinkNext(next: seq<int>, prev: seq<int>, i: nat): seq<int> {
    if i < |next| && i < |prev| && 0 <= prev[i] < |next| then next[prev[i] := next[i]] else next
  }

  /** The prev fields after atom i has been bypassed. */
  function UnlinkPrev(next: seq<int>, prev: seq<int>, i: nat): seq<int> {
    if i < |next| && i < |prev| && 0 <= next[i] < |prev| then prev[next[i] := prev[i]] else prev
  }

  /** What bypassing position p does to the fields of the list's other atoms. */
  lemma UnlinkFields(s: seq<nat>, first: int, next: seq<int>, prev: seq<int>, p: nat, j: nat)
    requires Chain(s, first, next, prev) && NoRepeat(s) && p < |s| && j < |s| && j != p
    ensures s[p] < |next| && s[j] < |next|
    ensures UnlinkNext(next, prev, s[p])[s[j]] == if j == p - 1 then At(s, p + 1) else At(s, j + 1)
    ensures UnlinkPrev(next, prev, s[p])[s[j]] == if j == p + 1 then At(s, p - 1) else At(s, j - 1)
  {
    assert p > 0 ==> s[p - 1] < |next|;
    assert p + 1 < |s| ==> s[p + 1] < |next|;
  }

  lemma UnlinkChain(s: seq<nat>, first: int, next: seq<int>, prev: seq<int>, p: nat)
    requires Chain(s, first, next, prev) && NoRepeat(s) && p < |s|
    ensures Chain(Without(s, p), if prev[s[p]] < 0 then next[s[p]] else first,
                  UnlinkNext(next, prev, s[p]), UnlinkPrev(next, prev, s[p]))
  {
    var t := Without(s, p);
    WithoutAt(s, p, 0);
    var next', prev' := UnlinkNext(next, prev, s[p]), UnlinkPrev(next, prev, s[p]);
    forall j: nat | j < |t|
      ensures t[j] < |next'| && next'[t[j]] == At(t, j + 1) && prev'[t[j]] == At(t, j - 1)
    {
      UnlinkFields(s, first, next, prev, p, if j < p then j else j + 1);
      WithoutAt(s, p, j);
      WithoutAt(s, p, j + 1);
      WithoutAt(s, p, j - 1);
    }
  }

  /** The neighbours named by the fields of a listed atom are listed too. */
  lemma Neighbours(s: seq<nat>, first: int, next: seq<int>, prev: seq<int>, p: nat)
    requires Chain(s, first, next, prev) && p < |s|
    ensures s[p] < |next| && -1 <= prev[s[p]] < |next| && -1 <= next[s[p]] < |prev|
    ensures (prev[s[p]] >= 0 ==> prev[s[p]] in s) && (next[s[p]] >= 0 ==> next[s[p]] in s)
  {
    assert p > 0 ==> s[p - 1] < |next|;
    assert p + 1 < |s| ==> s[p + 1] < |next|;
  }

  /** Taking the atom at position p out of list k. */
  lemma UnlinkKeeps(lists: seq<seq<nat>>, first: seq<int>, next: seq<int>, prev: seq<int>, k: nat, p: nat)
    requires Chains(lists, first, next, prev) && k < |lists| && p < |lists[k]|
    ensures var i := lists[k][p];
      && i < |next| && -1 <= prev[i] < |next| && -1 <= next[i] < |prev|
      && Chains(lists[k := Without(lists[k], p)], if prev[i] < 0 then first[k := next[i]] else first,
                UnlinkNext(next, prev, i), UnlinkPrev(next, prev, i))
  {
    var s := lists[k];
    var i := s[p];
    assert Chain(s, first[k], next, prev);
    UnlinkChain(s, first[k], next, prev, p);
    WithoutMembers(s, p);
    Neighbours(s, first[k], next, prev, p);
    var next', prev' := UnlinkNext(next, prev, i), UnlinkPrev(next, prev, i);
    var first' := if prev[i] < 0 then first[k := next[i]] else first;
    var lists' := lists[k := Without(s, p)];
    forall m, m', x: nat | 0 <= m < |lists| && 0 <= m' < |lists| && x in lists'[m] && x in lists'[m'] ensures m == m' {
      assert x in lists[m] && x in lists[m'];
    }
    forall k' | 0 <= k' < |lists| && k' != k ensures Chain(lists'[k'], first'[k'], next', prev') {
      forall x: nat | x in lists[k'] && x < |next| ensures next'[x] == next[x] && prev'[x] == prev[x] {
        assert x !in s;
      }
      ChainFrame(lists[k'], first[k'], next, prev, next', prev');
    }
  }

  /** Bypassing position p of a list writes only fields of that list's atoms. */
  lemma UnlinkFrame(s: seq<nat>, first: int, next: seq<int>, prev: seq<int>, p: nat)
    requires Chain(s, first, next, prev) && p < |s|
    ensures |UnlinkNext(next, prev, s[p])| == |next| && |UnlinkPrev(next, prev, s[p])| == |prev|
    ensures forall a: nat | a < |next| && a !in s ::
              UnlinkNext(next, prev, s[p])[a] == next[a] && UnlinkPrev(next, prev, s[p])[a] == prev[a]
  {
    Neighbours(s, first, next, prev, p);
  }

  /** Fields of unlisted atoms do not matter. */
  lemma ChainsFrame(lists: seq<seq<nat>>, first: seq<int>, next: seq<int>, prev: seq<int>, next': seq<int>,
    prev': seq<int>)
    requires Chains(lists, first, next, prev) && |next'| == |prev'| == |next| == |prev|
    requires forall k, x: nat | 0 <= k < |lists| && x in lists[k] && x < |next| ::
               next'[x] == next[x] && prev'[x] == prev[x]
    ensures Chains(lists, first, next', prev')
  {
    forall k | 0 <= k < |lists| ensures Chain(lists[k], first[k], next', prev') {
      ChainFrame(lists[k], first[k], next, prev, next', prev');
    }
  }
}
