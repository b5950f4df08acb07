// The Fisher-Yates shuffle behind the keyed hop order, over an arbitrary list of swap choices,
// and the proof that rejection sampling makes every order exactly equally likely.
module Shuffle {
  import opened Arith

  ghost predicate Injective(p: seq<nat>) {
    forall a, b :: 0 <= a < b < |p| ==> p[a] != p[b]
  }

  /** p lists each of 0..n-1 exactly once. */
  ghost predicate IsOrdering(p: seq<nat>, n: nat) {
    && |p| == n
    && Injective(p)
    && (forall v: nat :: v < n <==> v in p)
  }

  function Identity(n: nat): (p: seq<nat>)
    ensures |p| == n && forall k :: 0 <= k < n ==> p[k] == k
  {
    seq(n, k => k)
  }

  function Swap(p: seq<nat>, i: nat, j: nat): (q: seq<nat>)
    requires i < |p| && j < |p|
    ensures |q| == |p| && q[i] == p[j] && q[j] == p[i]
    ensures forall k :: 0 <= k < |p| && k != i && k != j ==> q[k] == p[k]
  {
    p[i := p[j]][j := p[i]]
  }

  /** js[0] was drawn below i, js[1] below i - 1, ..., the last one below 2. */
  predicate Choices(js: seq<nat>, i: nat) {
    && |js| == (if i <= 1 then 0 else i - 1)
    && forall k :: 0 <= k < |js| ==> js[k] < i - k
  }

  /** The shuffle loop from position i down, taking its swap partners from js. */
  function Shuffled(p: seq<nat>, i: nat, js: seq<nat>): (q: seq<nat>)
    requires i <= |p| && Choices(js, i)
    ensures |q| == |p|
    decreases i
  {
    if i <= 1 then p else Shuffled(Swap(p, i - 1, js[0]), i - 1, js[1..])
  }

  /** Each choice takes one out of pool, for the place at the end; what stood last fills the hole. */
  function Picked(pool: seq<nat>, js: seq<nat>): seq<nat>
    requires Choices(js, |pool|)
    decreases |pool|
  {
    var n := |pool|;
    if n <= 1 then pool else Picked(pool[js[0] := pool[n - 1]][..n - 1], js[1..]) + [pool[js[0]]]
  }

  /** The shuffle in place picks. */
  lemma {:induction false} ShuffledPicks(p: seq<nat>, i: nat, js: seq<nat>)
    requires i <= |p| && Choices(js, i)
    ensures Shuffled(p, i, js) == Picked(p[..i], js) + p[i..]
    decreases i
  {
    if i <= 1 {
      InTwo(p, i);
    } else {
      hide Shuffled, Picked;
      var q := Swap(p, i - 1, js[0]);
      ShuffledPicks(q, i - 1, js[1..]);
      OneShuffled(p, i, js);
      OnePicked(p, i, js);
      var front := Picked(q[..i - 1], js[1..]);
      assert front + ([p[js[0]]] + p[i..]) == (front + [p[js[0]]]) + p[i..];
    }
  }

  lemma InTwo(p: seq<nat>, i: nat)
    requires i <= |p|
    ensures p[..i] + p[i..] == p
  {
  }

  lemma OneShuffled(p: seq<nat>, i: nat, js: seq<nat>)
    requires 1 < i <= |p| && Choices(js, i)
    ensures Choices(js[1..], i - 1)
    ensures Shuffled(p, i, js) == Shuffled(Swap(p, i - 1, js[0]), i - 1, js[1..])
  {
  }

  /** What a swap at the end of a prefix leaves in it, and puts behind it. */
  lemma OnePicked(p: seq<nat>, i: nat, js: seq<nat>)
    requires 1 < i <= |p| && Choices(js, i)
    ensures Choices(js[1..], i - 1)
    ensures var q := Swap(p, i - 1, js[0]);
      && Picked(p[..i], js) == Picked(q[..i - 1], js[1..]) + [p[js[0]]]
      && q[i - 1..] == [p[js[0]]] + p[i..]
  {
    hide Swap;
    SwapAtEnd(p, i, js[0]);
  }

  lemma SwapAtEnd(p: seq<nat>, i: nat, j: nat)
    requires j < i <= |p|
    ensures var q, pool := Swap(p, i - 1, j), p[..i];
      q[..i - 1] == pool[j := pool[i - 1]][..i - 1] && q[i - 1..] == [pool[j]] + p[i..]
  {
  }

  lemma SwapKeepsOrdering(p: seq<nat>, i: nat, j: nat)
    requires IsOrdering(p, |p|) && i < |p| && j < |p|
    ensures IsOrdering(Swap(p, i, j), |p|)
  {
    var q := Swap(p, i, j);
    forall v: nat ensures v < |p| <==> v in q {
      if v in p {
        var k :| 0 <= k < |p| && p[k] == v;
        var k' := if k == i then j else if k == j then i else k;
        assert q[k'] == v;
      }
      if v in q {
        var k :| 0 <= k < |q| && q[k] == v;
        var k' := if k == i then j else if k == j then i else k;
        assert p[k'] == v;
      }
    }
  }

  /** Shuffling permutes, and never disturbs the positions from i on. */
  lemma {:induction false} ShuffledIsOrdering(p: seq<nat>, i: nat, js: seq<nat>)
    requires IsOrdering(p, |p|) && i <= |p| && Choices(js, i)
    ensures IsOrdering(Shuffled(p, i, js), |p|)
    ensures forall k :: i <= k < |p| ==> Shuffled(p, i, js)[k] == p[k]
    decreases i
  {
    if i > 1 {
      var q := Swap(p, i - 1, js[0]);
      SwapKeepsOrdering(p, i - 1, js[0]);
      ShuffledIsOrdering(q, i - 1, js[1..]);
      forall k | i <= k < |p| ensures Shuffled(p, i, js)[k] == p[k] {
        assert Shuffled(q, i - 1, js[1..])[k] == q[k];
      }
    }
  }

  /** Where v stands in p. */
  function IndexOf(p: seq<nat>, v: nat): (k: nat)
    requires v in p
    ensures k < |p| && p[k] == v
  {
    if p[0] == v then 0 else 1 + IndexOf(p[1..], v)
  }

  /** The inverse of the shuffle: the swap choices that turn p into t. */
  ghost function ChoicesFor(p: seq<nat>, i: nat, t: seq<nat>): (js: seq<nat>)
    requires IsOrdering(p, |p|) && IsOrdering(t, |p|)
    requires i <= |p| && forall k :: i <= k < |p| ==> p[k] == t[k]
    ensures Choices(js, i)
    ensures Shuffled(p, i, js) == t
    decreases i
  {
    if i <= 1 then
      OneLeft(p, i, t);
      []
    else
      assert t[i - 1] in t && t[i - 1] in p;
      var j := IndexOf(p, t[i - 1]);
      assert forall k :: i <= k < |t| ==> t[k] != t[i - 1];
      assert j < i;
      SwapKeepsOrdering(p, i - 1, j);
      var rest := ChoicesFor(Swap(p, i - 1, j), i - 1, t);
      assert ([j] + rest)[1..] == rest;
      [j] + rest
  }

  /** Two orderings that agree on all but position 0 are equal. */
  lemma OneLeft(p: seq<nat>, i: nat, t: seq<nat>)
    requires IsOrdering(p, |p|) && IsOrdering(t, |p|)
    requires i <= 1 && i <= |p| && forall k :: i <= k < |p| ==> p[k] == t[k]
    ensures p == t
  {
    if i == 1 {
      assert t[0] in t;
      assert t[0] in p;
      var k :| 0 <= k < |p| && p[k] == t[0];
    }
  }

  /** No other choices lead to t. */
  lemma {:induction false} ChoicesUnique(p: seq<nat>, i: nat, js: seq<nat>)
    requires IsOrdering(p, |p|) && i <= |p| && Choices(js, i)
    ensures forall k :: i <= k < |p| ==> Shuffled(p, i, js)[k] == p[k]
    ensures IsOrdering(Shuffled(p, i, js), |p|)
    ensures ChoicesFor(p, i, Shuffled(p, i, js)) == js
    decreases i
  {
    ShuffledIsOrdering(p, i, js);
    if i > 1 {
      var q := Swap(p, i - 1, js[0]);
      var t := Shuffled(p, i, js);
      SwapKeepsOrdering(p, i - 1, js[0]);
      ChoicesUnique(q, i - 1, js[1..]);
      assert t[i - 1] == q[i - 1] == p[js[0]];
      assert IndexOf(p, t[i - 1]) == js[0];
      assert js == [js[0]] + js[1..];
    }
  }

  /** For every n, swap choices and orderings of 0..n-1 correspond one to one. */
  lemma ShuffleIsBijection(n: nat, t: seq<nat>)
    requires IsOrdering(t, n)
    ensures IsOrdering(Identity(n), n)
    ensures Choices(ChoicesFor(Identity(n), n, t), n)
    ensures forall js: seq<nat> | Choices(js, n) ::
      Shuffled(Identity(n), n, js) == t <==> js == ChoicesFor(Identity(n), n, t)
  {
    assert IsOrdering(Identity(n), n) by { IdentityIsOrdering(n); }
    forall js: seq<nat> | Choices(js, n)
      ensures Shuffled(Identity(n), n, js) == t <==> js == ChoicesFor(Identity(n), n, t)
    {
      ChoicesUnique(Identity(n), n, js);
    }
  }

  lemma IdentityIsOrdering(n: nat)
    ensures IsOrdering(Identity(n), n)
  {
    forall v: nat ensures v < n <==> v in Identity(n) {
      if v < n { assert Identity(n)[v] == v; }
    }
  }

  // ----- rejection sampling ---------------------------------------------------------------

  const MAX_WORD: nat := 0xffff_ffff_ffff_ffff

  /** Words at or above the limit are rejected. */
  function Limit(bound: nat): nat
    requires bound >= 1
  {
    MAX_WORD - MAX_WORD % bound
  }

  /** The accepted 64-bit words that reduce to residue c. */
  ghost function Residue(bound: nat, c: nat): set<nat>
    requires bound >= 1
  {
    set w: nat | 0 <= w < Limit(bound) && w % bound == c
  }

  /** c, bound + c, ..., (q - 1) * bound + c. */
  ghost function Multiples(bound: nat, c: nat, q: nat): set<nat> {
    if q == 0 then {} else Multiples(bound, c, q - 1) + {(q - 1) * bound + c}
  }

  /** How many words each residue gets. */
  function Share(bound: nat): nat
    requires bound >= 1
  {
    Limit(bound) / bound
  }

  lemma {:induction false} MultiplesAre(bound: nat, c: nat, q: nat)
    requires c < bound
    ensures |Multiples(bound, c, q)| == q
    ensures forall w :: w in Multiples(bound, c, q) <==> 0 <= w < q * bound && w % bound == c
  {
    if q > 0 {
      MultiplesAre(bound, c, q - 1);
      var top := (q - 1) * bound;
      assert q * bound == top + bound;
      DivUnique(top + c, q - 1, bound, c);
      forall w | top <= w < q * bound ensures w % bound == c <==> w == top + c {
        DivUnique(w, q - 1, bound, w - top);
      }
    }
  }

  /** The limit is the largest multiple of the bound in a 64-bit word, so every residue has equally many accepted
      words. */
  lemma ResiduesEqual(bound: nat, c: nat)
    requires 1 <= bound && c < bound
    ensures Limit(bound) % bound == 0 && Limit(bound) <= 0xffff_ffff_ffff_ffff < Limit(bound) + bound
    ensures |Residue(bound, c)| == Share(bound)
  {
    var q := MAX_WORD / bound;
    DivUnique(Limit(bound), q, bound, 0);
    MultiplesAre(bound, c, q);
    assert Residue(bound, c) == Multiples(bound, c, q);
  }

  /** One accepted word for each bound i, i - 1, ..., 2. */
  predicate Accepted(ws: seq<nat>, i: nat) {
    && |ws| == (if i <= 1 then 0 else i - 1)
    && forall k :: 0 <= k < |ws| ==> ws[k] < Limit(i - k)
  }

  /** The swap choices those words make. */
  function Reduced(ws: seq<nat>, i: nat): (js: seq<nat>)
    requires Accepted(ws, i)
    ensures Choices(js, i)
  {
    seq(|ws|, k requires 0 <= k < |ws| => ws[k] % (i - k))
  }

  ghost function Prefixed(a: set<nat>, b: set<seq<nat>>): set<seq<nat>> {
    set w, ws | w in a && ws in b :: [w] + ws
  }

  lemma InPrefixed(a: set<nat>, b: set<seq<nat>>, s: seq<nat>)
    ensures s in Prefixed(a, b) <==> s != [] && s[0] in a && s[1..] in b
  {
    if s in Prefixed(a, b) {
      var w, ws :| w in a && ws in b && s == [w] + ws;
      assert s[1..] == ws;
    }
    if s != [] && s[0] in a && s[1..] in b {
      assert s == [s[0]] + s[1..];
    }
  }

  lemma MulSucc(m: nat, n: nat)
    ensures (m + 1) * n == m * n + n
  {
  }

  lemma PrefixedSplit(a: set<nat>, w: nat, b: set<seq<nat>>)
    requires w in a
    ensures |Prefixed(a, b)| == |Prefixed(a - {w}, b)| + |Prefixed({w}, b)|
  {
    var rest, one := Prefixed(a - {w}, b), Prefixed({w}, b);
    forall s ensures s in Prefixed(a, b) <==> s in rest || s in one
      ensures s !in rest || s !in one
    {
      InPrefixed(a, b, s);
      InPrefixed(a - {w}, b, s);
      InPrefixed({w}, b, s);
    }
    assert Prefixed(a, b) == rest + one;
    assert rest !! one;
  }

  lemma {:induction false} PrefixedSize(a: set<nat>, b: set<seq<nat>>)
    ensures |Prefixed(a, b)| == |a| * |b|
    decreases |a|
  {
    if a == {} {
      assert Prefixed(a, b) == {};
    } else {
      var w :| w in a;
      var rest := a - {w};
      PrefixedSize(rest, b);
      OnePrefix(w, b);
      PrefixedSplit(a, w, b);
      MulSucc(|rest|, |b|);
      assert |a| == |rest| + 1;
    }
  }

  lemma {:induction false} OnePrefix(w: nat, b: set<seq<nat>>)
    ensures |Prefixed({w}, b)| == |b|
    decreases |b|
  {
    if b == {} {
      assert Prefixed({w}, b) == {};
    } else {
      var t :| t in b;
      OnePrefix(w, b - {t});
      forall s ensures s in Prefixed({w}, b) <==> s in Prefixed({w}, b - {t}) || s == [w] + t
        ensures s == [w] + t ==> s !in Prefixed({w}, b - {t})
      {
        InPrefixed({w}, b, s);
        InPrefixed({w}, b - {t}, s);
        assert ([w] + t)[1..] == t;
        if s != [] && s[0] == w && s[1..] == t { assert s == [w] + t; }
      }
      assert Prefixed({w}, b) == Prefixed({w}, b - {t}) + {[w] + t};
    }
  }

  /** All accepted word lists that make exactly the choices js. */
  ghost function WordsFor(js: seq<nat>, i: nat): set<seq<nat>>
    requires Choices(js, i)
    decreases i
  {
    if i <= 1 then {[]} else Prefixed(Residue(i, js[0]), WordsFor(js[1..], i - 1))
  }

  lemma {:induction false} WordsForMember(ws: seq<nat>, js: seq<nat>, i: nat)
    requires Choices(js, i)
    ensures ws in WordsFor(js, i) <==> Leads(ws, js, i)
    decreases i
  {
    if i > 1 {
      InPrefixed(Residue(i, js[0]), WordsFor(js[1..], i - 1), ws);
      if ws != [] {
        WordsForMember(ws[1..], js[1..], i - 1);
        AcceptedSplits(ws, js, i);
      }
    }
  }

  /** The list ws is accepted and reduces to js, said of its head and of its tail. */
  ghost predicate Leads(ws: seq<nat>, js: seq<nat>, i: nat) {
    Accepted(ws, i) && Reduced(ws, i) == js
  }

  lemma AcceptedSplits(ws: seq<nat>, js: seq<nat>, i: nat)
    requires i > 1 && ws != [] && Choices(js, i)
    ensures Leads(ws, js, i) <==> ws[0] in Residue(i, js[0]) && Leads(ws[1..], js[1..], i - 1)
  {
    if ws[0] in Residue(i, js[0]) && Leads(ws[1..], js[1..], i - 1) {
      LeadsJoin(ws, js, i);
    }
    if Leads(ws, js, i) {
      assert ws[0] % i == Reduced(ws, i)[0];
      LeadsTail(ws, js, i);
    }
  }

  lemma LeadsJoin(ws: seq<nat>, js: seq<nat>, i: nat)
    requires i > 1 && ws != [] && Choices(js, i)
    requires ws[0] in Residue(i, js[0]) && Leads(ws[1..], js[1..], i - 1)
    ensures Leads(ws, js, i)
  {
    forall k | 0 <= k < |ws| ensures ws[k] < Limit(i - k) && ws[k] % (i - k) == js[k] {
      if k > 0 {
        assert ws[k] == ws[1..][k - 1];
        assert js[1..][k - 1] == Reduced(ws[1..], i - 1)[k - 1];
      }
    }
    assert Reduced(ws, i) == js;
  }

  lemma LeadsTail(ws: seq<nat>, js: seq<nat>, i: nat)
    requires i > 1 && ws != [] && Choices(js, i) && Leads(ws, js, i)
    ensures Leads(ws[1..], js[1..], i - 1)
  {
    forall k | 0 <= k < |ws| - 1 ensures ws[1..][k] % (i - 1 - k) == js[1..][k] {
      assert js[k + 1] == Reduced(ws, i)[k + 1];
    }
    assert Reduced(ws[1..], i - 1) == js[1..];
  }

  /** How many accepted word lists lead to any one ordering. */
  function Weight(i: nat): nat {
    if i <= 1 then 1 else Share(i) * Weight(i - 1)
  }

  lemma {:induction false} WordsForSize(js: seq<nat>, i: nat)
    requires Choices(js, i)
    ensures |WordsFor(js, i)| == Weight(i)
    decreases i
  {
    if i > 1 {
      WordsForSize(js[1..], i - 1);
      ResiduesEqual(i, js[0]);
      PrefixedSize(Residue(i, js[0]), WordsFor(js[1..], i - 1));
    }
  }

  /** Exact uniformity: the accepted word lists that produce ordering t form a set whose size is the same for
      every t. */
  lemma ShuffleIsUniform(n: nat, t: seq<nat>) returns (fibre: set<seq<nat>>)
    requires IsOrdering(t, n)
    ensures |fibre| == Weight(n)
    ensures forall ws :: ws in fibre <==> Accepted(ws, n) && Shuffled(Identity(n), n, Reduced(ws, n)) == t
  {
    ShuffleIsBijection(n, t);
    var js := ChoicesFor(Identity(n), n, t);
    fibre := WordsFor(js, n);
    WordsForSize(js, n);
    forall ws ensures ws in fibre <==> Accepted(ws, n) && Shuffled(Identity(n), n, Reduced(ws, n)) == t {
      WordsForMember(ws, js, n);
    }
  }
}
