// The hop schedule: which channel a slot uses, and why every channel keeps being visited.
module HopSchedule {
  import opened Arith
  import opened Bytes
  import opened HopWords
  import opened Shuffle
  import opened Wrappers

  /** A schedule is a key, or the public round-robin that needs none. */
  datatype Schedule = Schedule(key: seq<byte>, sequential: bool)

  // ----- drawing one index -------------------------------------------------------------------

  /** Some word of the stream is accepted for this bound. */
  ghost predicate Drawable(word: nat -> U64, bound: nat)
    requires bound >= 1
  {
    exists c: U64 :: word(c) < Limit(bound)
  }

  ghost predicate AllDrawable(word: nat -> U64, n: nat) {
    forall bound :: 2 <= bound <= n ==> Drawable(word, bound)
  }

  ghost function SomeAccepted(word: nat -> U64, bound: nat): (c: U64)
    requires bound >= 1 && Drawable(word, bound)
    ensures word(c) < Limit(bound)
  {
    var c: U64 :| word(c) < Limit(bound);
    c
  }

  /** Steps from counter up to c, counting around the 64-bit wrap. */
  function Ahead(counter: U64, c: U64): nat {
    if counter <= c then c - counter else c + TWO64 - counter
  }

  function Next(counter: U64): U64 {
    if counter + 1 == TWO64 then 0 else counter + 1
  }

  /** The first counter from here on, around the wrap, whose word is accepted. */
  ghost function FirstAccepted(word: nat -> U64, bound: nat, counter: U64): (c: U64)
    requires bound >= 1 && Drawable(word, bound)
    ensures word(c) < Limit(bound)
    decreases Ahead(counter, SomeAccepted(word, bound))
  {
    if word(counter) < Limit(bound) then counter else FirstAccepted(word, bound, Next(counter))
  }

  /** The counter k steps on, around the wrap. */
  function After(counter: U64, k: nat): U64
    decreases k
  {
    if k == 0 then counter else After(Next(counter), k - 1)
  }

  /** The rejection loop stops, from any counter, exactly when the stream has an accepted word at all. */
  lemma DrawStopsIff(word: nat -> U64, bound: nat, counter: U64)
    requires bound >= 1
    ensures (exists k: nat :: word(After(counter, k)) < Limit(bound)) <==> Drawable(word, bound)
  {
    if Drawable(word, bound) {
      AheadArrives(counter, SomeAccepted(word, bound));
    }
  }

  lemma {:induction false} AheadArrives(counter: U64, c: U64)
    ensures After(counter, Ahead(counter, c)) == c
    decreases Ahead(counter, c)
  {
    if counter != c {
      AheadArrives(Next(counter), c);
    }
  }

  /** The accepted words for bounds i, i - 1, ..., 2, read from counter on. */
  ghost function Draws(word: nat -> U64, counter: U64, i: nat): (ws: seq<nat>)
    requires AllDrawable(word, i)
    ensures Accepted(ws, i)
    decreases i
  {
    if i <= 1 then []
    else
      var c := FirstAccepted(word, i, counter);
      [word(c)] + Draws(word, Next(c), i - 1)
  }

  /** The order in which a round visits the n channels. */
  ghost function Order(word: nat -> U64, n: nat): (p: seq<nat>)
    requires AllDrawable(word, n)
    ensures |p| == n
  {
    Shuffled(Identity(n), n, Reduced(Draws(word, 0, n), n))
  }

  lemma OrderIsOrdering(word: nat -> U64, n: nat)
    requires AllDrawable(word, n)
    ensures IsOrdering(Order(word, n), n)
  {
    IdentityIsOrdering(n);
    ShuffledIsOrdering(Identity(n), n, Reduced(Draws(word, 0, n), n));
  }

  /** Counting on unbounded and reducing is counting around the wrap. */
  lemma NextReduced(d: nat)
    ensures d % TWO64 < TWO64 && Next(d % TWO64) == (d + 1) % TWO64
  {
  }

  /** Of the words from place from on, counted without end, w at place d is the first one accepted for the bound. */
  ghost predicate FirstFrom(word: nat -> U64, from: nat, bound: nat, w: nat, d: nat)
    requires bound >= 1
  {
    && from <= d && w == word(d % 0x1_0000_0000_0000_0000) < Limit(bound)
    && forall x: nat :: from <= x < d ==> word(x % 0x1_0000_0000_0000_0000) >= Limit(bound)
  }

  lemma {:induction false} FirstAcceptedAt(word: nat -> U64, bound: nat, from: nat) returns (d: nat)
    requires bound >= 1 && Drawable(word, bound) && from % TWO64 < TWO64
    ensures d % TWO64 < TWO64 && FirstAccepted(word, bound, from % TWO64) == d % TWO64
    ensures FirstFrom(word, from, bound, word(d % TWO64), d)
    decreases Ahead(from % TWO64, SomeAccepted(word, bound))
  {
    hide Limit;
    d := from;
    if word(from % TWO64) >= Limit(bound) {
      NextReduced(from);
      d := FirstAcceptedAt(word, bound, from + 1);
    }
  }

  /** The words ws at places ds: each is the first one behind the word before it that is accepted for its bound, and
      the bounds are i, i - 1, ..., 2. */
  ghost predicate TakenAt(word: nat -> U64, from: nat, i: nat, ws: seq<nat>, ds: seq<nat>) {
    && |ds| == |ws| == (if i <= 1 then 0 else i - 1)
    && forall k :: 0 <= k < |ds| ==> FirstFrom(word, if k == 0 then from else ds[k - 1] + 1, i - k, ws[k], ds[k])
  }

  lemma NoDraws(word: nat -> U64, counter: U64, i: nat)
    requires AllDrawable(word, i)
    ensures i <= 1 ==> Draws(word, counter, i) == []
  {
  }

  lemma DrawsStep(word: nat -> U64, counter: U64, i: nat)
    requires i > 1 && AllDrawable(word, i)
    ensures var c := FirstAccepted(word, i, counter);
      Draws(word, counter, i) == [word(c)] + Draws(word, Next(c), i - 1)
  {
  }

  lemma {:induction false} DrawsTakenAt(word: nat -> U64, from: nat, i: nat) returns (ds: seq<nat>)
    requires AllDrawable(word, i) && from % TWO64 < TWO64
    ensures TakenAt(word, from, i, Draws(word, from % TWO64, i), ds)
    decreases i
  {
    hide Limit, FirstAccepted, Accepted, FirstFrom, Next, Draws;
    ds := [];
    NoDraws(word, from % TWO64, i);
    if i > 1 {
      var d := FirstAcceptedAt(word, i, from);
      NextReduced(d);
      var rest := DrawsTakenAt(word, d + 1, i - 1);
      ds := [d] + rest;
      var w, tail := word(d % TWO64), Draws(word, (d + 1) % TWO64, i - 1);
      DrawsStep(word, from % TWO64, i);
      TakenPrepended(word, from, i, w, d, tail, rest);
    }
  }

  lemma TakenPrepended(word: nat -> U64, from: nat, i: nat, w: nat, d: nat, ws: seq<nat>, ds: seq<nat>)
    requires i > 1 && FirstFrom(word, from, i, w, d) && TakenAt(word, d + 1, i - 1, ws, ds)
    ensures TakenAt(word, from, i, [w] + ws, [d] + ds)
  {
    hide FirstFrom;
    var ws', ds' := [w] + ws, [d] + ds;
    forall k | 0 < k < |ds'| ensures FirstFrom(word, ds'[k - 1] + 1, i - k, ws'[k], ds'[k]) {
      assert FirstFrom(word, if k - 1 == 0 then d + 1 else ds[k - 2] + 1, i - 1 - (k - 1), ws[k - 1], ds[k - 1]);
    }
  }

  /** The reference order: the words at places ds, reduced, each pick one channel out of those left, for the last
      place of the round first, and the last channel left fills the hole. */
  lemma OrderIsPicked(word: nat -> U64, n: nat) returns (ds: seq<nat>, ws: seq<nat>, js: seq<nat>)
    requires AllDrawable(word, n)
    ensures TakenAt(word, 0, n, ws, ds)
    ensures Choices(js, n) && forall k :: 0 <= k < |js| ==> js[k] == ws[k] % (n - k)
    ensures Order(word, n) == Picked(Identity(n), js)
  {
    hide Picked, FirstFrom, Draws;
    ws := Draws(word, 0, n);
    ds := DrawsTakenAt(word, 0, n);
    js := Reduced(ws, n);
    ShuffledPicks(Identity(n), n, js);
    assert Identity(n)[..n] == Identity(n) && Identity(n)[n..] == [];
  }

  /** Draw one index below bound by rejection. */
  method Draw(key: seq<byte>, round: U64, bound: nat, counter: U64) returns (j: nat, next: U64)
    requires |key| == 16 && 1 <= bound < TWO64 && Drawable(RoundWords(key, round), bound)
    ensures var c := FirstAccepted(RoundWords(key, round), bound, counter);
      j == RoundWords(key, round)(c) % bound && next == Next(c)
  {
    hide RoundWords;
    ghost var word := RoundWords(key, round);
    var limit := MAX_WORD - MAX_WORD % bound;
    var c := counter;
    var r := ReadWord(key, round, c);
    next := Next(c);
    while r >= limit
      invariant r == word(c) && next == Next(c)
      invariant FirstAccepted(word, bound, c) == FirstAccepted(word, bound, counter)
      decreases Ahead(c, SomeAccepted(word, bound))
    {
      c := next;
      r := ReadWord(key, round, c);
      next := Next(c);
    }
    j := r % bound;
  }

  /** Shuffling on: one swap, then the rest of the words. */
  lemma OneSwap(p: seq<nat>, i: nat, ws: seq<nat>)
    requires 1 < i <= |p| && Accepted(ws, i)
    ensures ws[0] % i < i && Accepted(ws[1..], i - 1)
    ensures Shuffled(p, i, Reduced(ws, i)) == Shuffled(Swap(p, i - 1, ws[0] % i), i - 1, Reduced(ws[1..], i - 1))
  {
    hide Reduced, Accepted, Limit;
    FirstChoice(ws, i);
    LeadsTail(ws, Reduced(ws, i), i);
  }

  lemma FirstChoice(ws: seq<nat>, i: nat)
    requires 1 < i && Accepted(ws, i)
    ensures ws != [] && ws[0] % i < i
    ensures Reduced(ws, i) != [] && Reduced(ws, i)[0] == ws[0] % i
  {
  }

  method Exchange(p: array<nat>, a: nat, b: nat)
    requires a < p.Length && b < p.Length
    modifies p
    ensures p[..] == Swap(old(p[..]), a, b)
  {
    var t := p[a];
    p[a] := p[b];
    p[b] := t;
  }

  /** The in-place shuffle. */
  method Permutation(key: seq<byte>, round: U64, n: U64) returns (order: seq<nat>)
    requires |key| == 16 && AllDrawable(RoundWords(key, round), n)
    ensures order == Order(RoundWords(key, round), n)
    ensures IsOrdering(order, n)
  {
    hide RoundWords, Shuffled, FirstAccepted, Reduced, Accepted, Drawable;
    ghost var word := RoundWords(key, round);
    var p := new nat[n](k => k);
    assert p[..] == Identity(n);
    var counter: U64 := 0;
    var i := n;
    while i > 1
      invariant 0 <= i <= n
      invariant Shuffled(p[..], i, Reduced(Draws(word, counter, i), i)) == Order(word, n)
    {
      ghost var ws := Draws(word, counter, i);
      ghost var q := p[..];
      OneSwap(q, i, ws);
      var j;
      j, counter := Draw(key, round, i, counter);
      assert ws[1..] == Draws(word, counter, i - 1);
      Exchange(p, i - 1, j);
      i := i - 1;
    }
    order := p[..];
    ShuffledDone(order, i, Draws(word, counter, i));
    OrderIsOrdering(word, n);
  }

  lemma ShuffledDone(p: seq<nat>, i: nat, ws: seq<nat>)
    requires i <= 1 && i <= |p| && Accepted(ws, i)
    ensures Shuffled(p, i, Reduced(ws, i)) == p
  {
  }

  // ----- slots and channels ------------------------------------------------------------------

  function SlotRound(slot: U64, n: nat): U64
    requires n >= 1
  {
    slot / n
  }

  /** The round can be drawn; the public schedule needs no draw. */
  ghost predicate RoundReady(s: Schedule, round: U64, n: nat) {
    s.sequential || (|s.key| == 16 && AllDrawable(RoundWords(s.key, round), n))
  }

  /** So can the round the slot falls in. */
  ghost predicate Ready(s: Schedule, slot: U64, n: nat) {
    n >= 1 && RoundReady(s, SlotRound(slot, n), n)
  }

  /** And those of all slots from one up to but without another. */
  ghost predicate AllReady(s: Schedule, from: nat, to: nat, n: nat) {
    n >= 1 && forall x: U64 :: from <= x < to ==> Ready(s, x, n)
  }

  ghost function RoundOrder(s: Schedule, round: U64, n: nat): seq<nat>
    requires RoundReady(s, round, n) && !s.sequential
  {
    Order(RoundWords(s.key, round), n)
  }

  ghost function ChannelAt(s: Schedule, slot: U64, n: nat): (c: nat)
    requires Ready(s, slot, n)
  {
    if s.sequential then slot % n else RoundOrder(s, SlotRound(slot, n), n)[slot % n]
  }

  datatype HopError = EmptyHopset

  method ChannelIndex(s: Schedule, slot: U64, n: U64) returns (r: Result<nat, HopError>)
    requires n == 0 || Ready(s, slot, n)
    ensures r == if n == 0 then Err(EmptyHopset) else Ok(ChannelAt(s, slot, n))
    ensures n > 0 && s.sequential ==> r == Ok(slot % n)
    ensures n > 0 && !s.sequential ==> r == Ok(Order(RoundWords(s.key, slot / n), n)[slot % n])
  {
    if n == 0 {
      return Err(EmptyHopset);
    }
    if s.sequential {
      return Ok(slot % n);
    }
    var p := Permutation(s.key, SlotRound(slot, n), n);
    r := Ok(p[slot % n]);
  }

  // ----- coverage ------------------------------------------------------------------------------

  /** slot is the one place in aligned block b where channel c is used. */
  ghost predicate OnlyVisit(s: Schedule, n: nat, b: nat, c: nat, slot: nat)
    requires (b + 1) * n <= TWO64 && AllReady(s, b * n, (b + 1) * n, n)
  {
    && b * n <= slot < (b + 1) * n
    && forall x: nat | b * n <= x < (b + 1) * n :: ChannelAt(s, x, n) == c <==> x == slot
  }

  /** A block is one round. */
  lemma BlockIsRound(n: nat, b: nat, x: nat)
    requires n >= 1 && b * n <= x < (b + 1) * n <= TWO64
    ensures b < TWO64 && x - b * n < n && SlotRound(x, n) == b && x % n == x - b * n
  {
    assert (b + 1) * n == b * n + n;
    DivUnique(x, b, n, x - b * n);
    MulMono(1, n, b);
  }

  /** A block whose one round can be drawn is ready in every slot. */
  lemma BlockReady(s: Schedule, n: nat, b: nat)
    requires n >= 1 && (b + 1) * n <= TWO64 && b < TWO64 && RoundReady(s, b, n)
    ensures AllReady(s, b * n, (b + 1) * n, n)
  {
    hide RoundReady;
    forall x: U64 | b * n <= x < (b + 1) * n ensures Ready(s, x, n) {
      BlockIsRound(n, b, x);
    }
  }

  lemma ChannelInBlock(s: Schedule, n: nat, b: nat, x: nat)
    requires n >= 1 && b * n <= x < (b + 1) * n <= TWO64 && b < TWO64 && RoundReady(s, b, n)
    ensures Ready(s, x, n) && x - b * n < n
    ensures ChannelAt(s, x, n) == if s.sequential then x - b * n else RoundOrder(s, b, n)[x - b * n]
  {
    hide RoundReady, RoundOrder;
    BlockIsRound(n, b, x);
  }

  /** Each aligned block of n slots visits each channel exactly once; only its own round has to be drawable. */
  lemma BlockVisitsOnce(s: Schedule, n: nat, b: nat, c: nat) returns (slot: nat)
    requires c < n && (b + 1) * n <= TWO64 && b < TWO64 && RoundReady(s, b, n)
    ensures AllReady(s, b * n, (b + 1) * n, n) && OnlyVisit(s, n, b, c, slot)
  {
    hide ChannelAt, Ready, Order, RoundWords, AllDrawable;
    assert (b + 1) * n == b * n + n;
    BlockReady(s, n, b);
    var k := PlaceOf(s, n, b, c);
    slot := b * n + k;
    forall x: nat | b * n <= x < (b + 1) * n ensures Ready(s, x, n) && (ChannelAt(s, x, n) == c <==> x == slot) {
      ChannelInBlock(s, n, b, x);
    }
  }

  /** The one place of channel c in its round. */
  lemma PlaceOf(s: Schedule, n: nat, b: nat, c: nat) returns (k: nat)
    requires c < n && b < TWO64 && RoundReady(s, b, n)
    ensures k < n
    ensures s.sequential ==> k == c
    ensures !s.sequential ==> forall j :: 0 <= j < n ==> (RoundOrder(s, b, n)[j] == c <==> j == k)
  {
    hide Order, AllDrawable, RoundWords;
    k := c;
    if !s.sequential {
      var p := RoundOrder(s, b, n);
      OrderIsOrdering(RoundWords(s.key, b), n);
      assert c in p;
      k :| 0 <= k < n && p[k] == c;
    }
  }

  /** Any 2n - 1 consecutive slots contain every channel. */
  lemma WindowVisitsAll(s: Schedule, n: nat, from: nat, c: nat) returns (slot: nat)
    requires c < n && from + 2 * n - 1 <= TWO64 && AllReady(s, from, from + 2 * n - 1, n)
    ensures from <= slot < from + 2 * n - 1
    ensures ChannelAt(s, slot, n) == c
  {
    var b := (from + n - 1) / n;
    var r := (from + n - 1) % n;
    assert b * n + r == from + n - 1;
    assert (b + 1) * n == b * n + n;
    BlockIsRound(n, b, b * n);
    assert Ready(s, b * n, n);
    slot := BlockVisitsOnce(s, n, b, c);
  }

  /** Two visits to a channel with none between are at most 2n - 1 slots apart, and exactly n when sequential. */
  lemma RevisitGap(s: Schedule, n: nat, x: nat, y: nat)
    requires x < y < TWO64 && AllReady(s, x, y + 1, n)
    requires ChannelAt(s, x, n) == ChannelAt(s, y, n)
    requires forall z: nat | x < z < y :: ChannelAt(s, z, n) != ChannelAt(s, x, n)
    ensures y - x <= 2 * n - 1
    ensures s.sequential ==> y - x == n
  {
    ChannelInRange(s, x, n);
    if s.sequential {
      SequentialPeriod(n, x, y);
      var z := if x + n < y then x + n else y;
      SequentialStep(n, x);
      assert ChannelAt(s, z, n) == ChannelAt(s, x, n);
    } else if x + 2 * n <= y {
      var z := WindowVisitsAll(s, n, x + 1, ChannelAt(s, x, n));
    }
  }

  lemma ChannelInRange(s: Schedule, x: U64, n: nat)
    requires Ready(s, x, n)
    ensures ChannelAt(s, x, n) < n
  {
    if !s.sequential {
      var p := RoundOrder(s, SlotRound(x, n), n);
      OrderIsOrdering(RoundWords(s.key, SlotRound(x, n)), n);
      assert p[x % n] in p;
    }
  }

  lemma SequentialStep(n: nat, x: nat)
    requires n >= 1
    ensures (x + n) % n == x % n
  {
    assert x + n == (x / n + 1) * n + x % n;
    DivUnique(x + n, x / n + 1, n, x % n);
  }

  lemma SequentialPeriod(n: nat, x: nat, y: nat)
    requires n >= 1 && x < y && x % n == y % n
    ensures y - x >= n
  {
    assert y - x == (y / n - x / n) * n;
    if y / n <= x / n {
      MulMono(y / n, x / n, n);
    } else {
      MulMono(1, y / n - x / n, n);
    }
  }
}
