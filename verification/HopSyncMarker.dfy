// The 29-byte sync marker: a vendor element a beacon can carry, and the decoder that scans for it.
module HopSyncMarker {
  import opened Bytes
  import opened Wrappers

  datatype Marker = Marker(fingerprint: U32, epoch: U32, slot: U64, phaseUs: U32)

  const SIZE: nat := 29
  const HEAD: seq<byte> := [221, 27, 0x57, 0x42, 0x75, 0x48, 1]
  const TAIL: seq<byte> := [0xd7, 0x3a]

  /** The wire image of a marker. */
  function Encoded(m: Marker): (b: seq<byte>)
    ensures |b| == SIZE
  {
    HEAD + PutLe(m.fingerprint, 4) + PutLe(m.epoch, 4) + PutLe(m.slot, 8) + PutLe(m.phaseUs, 4) + TAIL
  }

  /** A window with the fixed bytes of a marker in place. */
  predicate Framed(w: seq<byte>) {
    |w| == SIZE && w[..7] == HEAD && w[27..] == TAIL
  }

  /** The field values inside a framed window. */
  function Fields(w: seq<byte>): Marker
    requires |w| == SIZE
  {
    Widths();
    GetLeBound(w[7..11]);
    GetLeBound(w[11..15]);
    GetLeBound(w[15..23]);
    GetLeBound(w[23..27]);
    Marker(GetLe(w[7..11]), GetLe(w[11..15]), GetLe(w[15..23]), GetLe(w[23..27]))
  }

  /** The image of a marker is framed, and the fields read back are the marker's own. */
  lemma EncodedFramed(m: Marker)
    ensures Framed(Encoded(m)) && Fields(Encoded(m)) == m
  {
    hide PutLe, GetLe;
    var e := Encoded(m);
    assert e[..7] == HEAD && e[27..] == TAIL;
    assert e[7..11] == PutLe(m.fingerprint, 4);
    assert e[11..15] == PutLe(m.epoch, 4);
    assert e[15..23] == PutLe(m.slot, 8);
    assert e[23..27] == PutLe(m.phaseUs, 4);
    Widths();
    GetPut(m.fingerprint, 4);
    GetPut(m.epoch, 4);
    GetPut(m.slot, 8);
    GetPut(m.phaseUs, 4);
  }

  /** The 29 bytes, place by place. */
  lemma Layout(m: Marker)
    ensures var e := Encoded(m);
      && e[..7] == [221, 27, 0x57, 0x42, 0x75, 0x48, 1] && e[27] == 0xd7 && e[28] == 0x3a
      && GetLe(e[7..11]) == m.fingerprint && GetLe(e[11..15]) == m.epoch
      && GetLe(e[15..23]) == m.slot && GetLe(e[23..27]) == m.phaseUs
  {
    hide PutLe, GetLe, Encoded;
    EncodedFramed(m);
    assert Encoded(m)[27..] == [0xd7, 0x3a];
  }

  /** The frame check accepts nothing but images of markers. */
  lemma FramedEncodes(w: seq<byte>)
    requires Framed(w)
    ensures Encoded(Fields(w)) == w
  {
    hide PutLe, GetLe;
    PutGet(w[7..11]);
    PutGet(w[11..15]);
    PutGet(w[15..23]);
    PutGet(w[23..27]);
    assert w == w[..7] + w[7..11] + w[11..15] + w[15..23] + w[23..27] + w[27..];
  }

  ghost predicate IsImage(w: seq<byte>) {
    exists m :: w == Encoded(m)
  }

  /** The 29 bytes of p from position i are the image of some marker. */
  ghost predicate ImageAt(p: seq<byte>, i: nat) {
    i + SIZE <= |p| && IsImage(p[i..i + SIZE])
  }

  /** The marker whose image is the first window, from position i on, that is an image at all. */
  ghost function FirstMarker(p: seq<byte>, i: nat): Option<Marker>
    decreases |p| - i
  {
    if i + SIZE > |p| then None
    else if ImageAt(p, i) then (var m :| p[i..i + SIZE] == Encoded(m); Some(m))
    else FirstMarker(p, i + 1)
  }

  /** A marker behind any prefix is found, whatever follows it, if no earlier window is an image. */
  lemma {:induction false} FoundBehindPrefix(prefix: seq<byte>, m: Marker, rest: seq<byte>, i: nat)
    requires i <= |prefix|
    requires forall k :: i <= k < |prefix| ==> !ImageAt(prefix + Encoded(m) + rest, k)
    ensures FirstMarker(prefix + Encoded(m) + rest, i) == Some(m)
    decreases |prefix| - i
  {
    var p := prefix + Encoded(m) + rest;
    if i == |prefix| {
      assert p[i..i + SIZE] == Encoded(m);
      assert ImageAt(p, i);
      var m' :| p[i..i + SIZE] == Encoded(m') && FirstMarker(p, i) == Some(m');
      EncodedFramed(m);
      EncodedFramed(m');
    } else {
      FoundBehindPrefix(prefix, m, rest, i + 1);
    }
  }

  /** Something is found exactly when some window is an image, and then it is that of the first one, at k. */
  lemma {:induction false} FirstMarkerMeans(p: seq<byte>, i: nat) returns (k: nat)
    ensures FirstMarker(p, i).None? ==> forall j :: i <= j ==> !ImageAt(p, j)
    ensures FirstMarker(p, i).Some? ==>
      && i <= k && k + SIZE <= |p| && p[k..k + SIZE] == Encoded(FirstMarker(p, i).value)
      && forall j :: i <= j < k ==> !ImageAt(p, j)
    decreases |p| - i
  {
    k := i;
    if i + SIZE <= |p| && !ImageAt(p, i) {
      k := FirstMarkerMeans(p, i + 1);
    }
  }

  lemma SubWindow(p: seq<byte>, i: nat, a: nat, b: nat)
    requires i + SIZE <= |p| && a <= b <= SIZE
    ensures p[i + a..i + b] == p[i..i + SIZE][a..b]
  {
    var w := p[i..i + SIZE];
    forall k | 0 <= k < b - a ensures p[i + a..i + b][k] == w[a..b][k] {
      assert w[a..b][k] == w[a + k] == p[i + a + k];
    }
  }

  // ----- the code ----------------------------------------------------------------------------

  /** Store v as n bytes from offset off; rest is v >> 8 * i. */
  method Put(b: array<byte>, off: nat, v: nat, n: nat)
    requires off + n <= b.Length
    modifies b
    ensures b[..] == old(b[..off]) + PutLe(v, n) + old(b[off + n..])
  {
    var rest := v;
    for i := 0 to n
      invariant b[off..off + i] + PutLe(rest, n - i) == PutLe(v, n)
      invariant b[..off] == old(b[..off]) && b[off + n..] == old(b[off + n..])
    {
      ghost var was := b[off..off + i];
      b[off + i] := rest % 256;
      assert b[off..off + i + 1] == was + [rest % 256];
      rest := rest / 256;
    }
    assert b[..] == b[..off] + b[off..off + n] + b[off + n..];
  }

  method Encode(m: Marker) returns (b: array<byte>)
    ensures fresh(b) && b[..] == Encoded(m)
  {
    hide PutLe;
    b := new byte[29](_ => 0);
    b[0], b[1], b[2], b[3], b[4], b[5], b[6] := 221, 27, 0x57, 0x42, 0x75, 0x48, 1;
    assert b[..7] == HEAD;
    Put(b, 7, m.fingerprint, 4);
    assert b[..11] == HEAD + PutLe(m.fingerprint, 4);
    Put(b, 11, m.epoch, 4);
    assert b[..15] == HEAD + PutLe(m.fingerprint, 4) + PutLe(m.epoch, 4);
    Put(b, 15, m.slot, 8);
    assert b[..23] == HEAD + PutLe(m.fingerprint, 4) + PutLe(m.epoch, 4) + PutLe(m.slot, 8);
    Put(b, 23, m.phaseUs, 4);
    ghost var front := HEAD + PutLe(m.fingerprint, 4) + PutLe(m.epoch, 4) + PutLe(m.slot, 8) + PutLe(m.phaseUs, 4);
    assert b[..27] == front;
    b[27] := 0xd7;
    b[28] := 0x3a;
    assert b[..] == front + TAIL;
  }

  method Get(p: seq<byte>, off: nat, n: nat) returns (v: nat)
    requires off + n <= |p|
    ensures v == GetLe(p[off..off + n]) && v < Pow256(n)
  {
    v := 0;
    for i := 0 to n
      invariant v == GetLe(p[off..off + i])
    {
      assert p[off..off + i + 1] == p[off..off + i] + [p[off + i]];
      GetLeConcat(p[off..off + i], [p[off + i]]);
      v := v + Pow256(i) * p[off + i];
    }
    GetLeBound(p[off..off + n]);
  }

  /** Read the four fields of the window at i. */
  method GetFields(p: seq<byte>, i: nat) returns (m: Marker)
    requires i + SIZE <= |p|
    ensures m == Fields(p[i..i + SIZE])
  {
    hide GetLe;
    Widths();
    var fingerprint := Get(p, i + 7, 4);
    var epoch := Get(p, i + 11, 4);
    var slot := Get(p, i + 15, 8);
    var phaseUs := Get(p, i + 23, 4);
    SubWindow(p, i, 7, 11);
    SubWindow(p, i, 11, 15);
    SubWindow(p, i, 15, 23);
    SubWindow(p, i, 23, 27);
    m := Marker(fingerprint, epoch, slot, phaseUs);
  }

  method Decode(p: seq<byte>) returns (r: Option<Marker>)
    ensures r == FirstMarker(p, 0)
  {
    hide Fields, Framed;
    var i := 0;
    while i + SIZE <= |p|
      invariant FirstMarker(p, 0) == FirstMarker(p, i)
    {
      FramedBytes(p[i..i + SIZE]);
      if p[i] == 221 && p[i + 1] == 27 && p[i + 2] == 0x57 && p[i + 3] == 0x42 && p[i + 4] == 0x75
         && p[i + 5] == 0x48 && p[i + 6] == 1 && p[i + 27] == 0xd7 && p[i + 28] == 0x3a {
        var m := GetFields(p, i);
        WindowFound(p, i, m);
        return Some(m);
      }
      WindowMissed(p, i);
      i := i + 1;
    }
    r := None;
  }

  lemma FramedBytes(w: seq<byte>)
    requires |w| == SIZE
    ensures Framed(w) <==>
      (w[0] == 221 && w[1] == 27 && w[2] == 0x57 && w[3] == 0x42 && w[4] == 0x75
       && w[5] == 0x48 && w[6] == 1 && w[27] == 0xd7 && w[28] == 0x3a)
  {
    assert w[..7] == [w[0], w[1], w[2], w[3], w[4], w[5], w[6]];
    assert w[27..] == [w[27], w[28]];
  }

  lemma WindowFound(p: seq<byte>, i: nat, m: Marker)
    requires i + SIZE <= |p| && Framed(p[i..i + SIZE]) && m == Fields(p[i..i + SIZE])
    ensures FirstMarker(p, i) == Some(m)
  {
    var w := p[i..i + SIZE];
    FramedEncodes(w);
    assert IsImage(w);
    var m' :| w == Encoded(m') && FirstMarker(p, i) == Some(m');
    EncodedFramed(m');
  }

  lemma WindowMissed(p: seq<byte>, i: nat)
    requires i + SIZE <= |p| && !Framed(p[i..i + SIZE])
    ensures FirstMarker(p, i) == FirstMarker(p, i + 1)
  {
    var w := p[i..i + SIZE];
    forall m ensures w != Encoded(m) {
      EncodedFramed(m);
    }
  }
}
