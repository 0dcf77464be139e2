/** Octet strings, little-endian numbers and fixed-layout records. */
module Bytes {
  type byte = b: nat | b < 256
  type Octets = seq<byte>

  function Flatten(parts: seq<Octets>): Octets {
    if parts == [] then [] else parts[0] + Flatten(parts[1..])
  }

  lemma {:induction false} FlattenConcat(a: seq<Octets>, b: seq<Octets>)
    ensures Flatten(a + b) == Flatten(a) + Flatten(b)
  {
    if a == [] {
      assert a + b == b;
    } else {
      assert (a + b)[1..] == a[1..] + b;
      FlattenConcat(a[1..], b);
    }
  }

  lemma FlattenAppend(a: seq<Octets>, x: Octets)
    ensures Flatten(a + [x]) == Flatten(a) + x
  {
    FlattenConcat(a, [x]);
    assert [x][1..] == [];
  }

  lemma FlattenNext(s: seq<Octets>, k: nat)
    requires k < |s|
    ensures Flatten(s[..k + 1]) == Flatten(s[..k]) + s[k]
  {
    FlattenAppend(s[..k], s[k]);
    assert s[..k + 1] == s[..k] + [s[k]];
  }

  lemma FlattenSingle(a: Octets)
    ensures Flatten([a]) == a
  {
    FlattenAppend([], a);
    assert [] + [a] == [a];
  }

  lemma {:induction false} FlattenAtLeast(records: seq<Octets>)
    requires forall i | 0 <= i < |records| :: |records[i]| > 0
    ensures |records| <= |Flatten(records)|
  {
    if records != [] {
      FlattenAtLeast(records[1..]);
    }
  }

  lemma {:induction false} FlattenAtMost(records: seq<Octets>, w: nat)
    requires forall i | 0 <= i < |records| :: |records[i]| <= w
    ensures |Flatten(records)| <= w * |records|
  {
    if records != [] {
      FlattenAtMost(records[1..], w);
    }
  }

  lemma Nothing(a: Octets)
    ensures a + [] == a && [] + a == a
  {}

  lemma Reassociate(a: Octets, b: Octets, c: Octets)
    ensures a + (b + c) == (a + b) + c
  {}

  // ---------- Writing into a buffer ----------

  /** `buf` with `bytes` written at `at`. */
  function Put(buf: Octets, at: nat, bytes: Octets): Octets
    requires at + |bytes| <= |buf|
  {
    buf[..at] + bytes + buf[at + |bytes|..]
  }

  lemma PutElsewhere(buf: Octets, at: nat, bytes: Octets, lo: nat, hi: nat)
    requires at + |bytes| <= |buf| && lo <= hi <= |buf| && (hi <= at || at + |bytes| <= lo)
    ensures Put(buf, at, bytes)[lo..hi] == buf[lo..hi]
  {}

  /** Writing the next piece of a content extends what already stands of it. */
  lemma PutNext(buf: Octets, lo: nat, p: nat, content: Octets, n: nat)
    requires p + n <= |content| && lo + |content| <= |buf| && buf[lo..lo + p] == content[..p]
    ensures Put(buf, lo + p, content[p..p + n])[lo..lo + p + n] == content[..p + n]
  {
    var after := Put(buf, lo + p, content[p..p + n]);
    assert after[lo..lo + p] == buf[lo..lo + p];
    assert after[lo + p..lo + p + n] == content[p..p + n];
    assert after[lo..lo + p + n] == after[lo..lo + p] + after[lo + p..lo + p + n];
  }

  // ---------- Little-endian numbers ----------

  function Pow256(w: nat): (p: nat)
    ensures p > 0
  {
    if w == 0 then 1 else 256 * Pow256(w - 1)
  }

  /** The `w` low-order bytes of `v`; a value that does not fit is truncated, as an integer cast does. */
  function LittleEndian(v: nat, w: nat): (s: Octets)
    ensures |s| == w
    decreases w
  {
    if w == 0 then [] else [v % 256] + LittleEndian(v / 256, w - 1)
  }

  function Number(s: Octets): nat {
    if s == [] then 0 else s[0] + 256 * Number(s[1..])
  }

  lemma {:induction false} NumberRange(s: Octets)
    ensures Number(s) < Pow256(|s|)
  {
    if s != [] {
      NumberRange(s[1..]);
    }
  }

  lemma {:induction false} NumberOfFitting(v: nat, w: nat)
    requires v < Pow256(w)
    ensures Number(LittleEndian(v, w)) == v
    decreases w
  {
    if w > 0 {
      NumberOfFitting(v / 256, w - 1);
      assert LittleEndian(v, w)[1..] == LittleEndian(v / 256, w - 1);
    }
  }

  /** A number survives being written in `w` bytes exactly when it fits. */
  lemma NumberSurvives(v: nat, w: nat)
    ensures Number(LittleEndian(v, w)) == v <==> v < Pow256(w)
  {
    NumberRange(LittleEndian(v, w));
    if v < Pow256(w) {
      NumberOfFitting(v, w);
    }
  }

  lemma FitsIn(v: nat, w: nat)
    requires v < Pow256(w)
    ensures Number(LittleEndian(v, w)) == v
  {
    NumberSurvives(v, w);
  }

  lemma Widths()
    ensures Pow256(2) == 0x1_0000 && Pow256(4) == 0x1_0000_0000 && Pow256(8) == 0x1_0000_0000_0000_0000
  {
    assert Pow256(1) == 256;
    assert Pow256(3) == 256 * Pow256(2);
    assert Pow256(5) == 256 * Pow256(4);
    assert Pow256(6) == 256 * Pow256(5);
    assert Pow256(7) == 256 * Pow256(6);
  }

  // ---------- Records of fixed-width fields ----------

  function Width(ws: seq<nat>): nat {
    if ws == [] then 0 else ws[0] + Width(ws[1..])
  }

  lemma {:induction false} WidthConcat(a: seq<nat>, b: seq<nat>)
    ensures Width(a + b) == Width(a) + Width(b)
  {
    if a == [] {
      assert a + b == b;
    } else {
      assert (a + b)[1..] == a[1..] + b;
      WidthConcat(a[1..], b);
    }
  }

  /** Field `i` of a record starts after the fields before it and ends inside the record. */
  lemma FieldInside(ws: seq<nat>, i: nat)
    requires i < |ws|
    ensures Width(ws[..i]) + ws[i] <= Width(ws)
  {
    assert ws == ws[..i] + ([ws[i]] + ws[i + 1..]);
    WidthConcat(ws[..i], [ws[i]] + ws[i + 1..]);
  }

  function Pack(ws: seq<nat>, vs: seq<nat>): (s: Octets)
    requires |ws| == |vs|
    ensures |s| == Width(ws)
  {
    if ws == [] then [] else LittleEndian(vs[0], ws[0]) + Pack(ws[1..], vs[1..])
  }

  /** The number in field `i` of the record at the front of `s`. */
  function Field(ws: seq<nat>, s: Octets, i: nat): nat
    requires i < |ws| && |s| >= Width(ws)
  {
    FieldInside(ws, i);
    var start := Width(ws[..i]);
    Number(s[start..start + ws[i]])
  }

  /** Past the first field, a field is found in what follows it. */
  lemma FieldOfRest(ws: seq<nat>, first: Octets, rest: Octets, i: nat)
    requires 0 < i < |ws| && |first| == ws[0] && |rest| >= Width(ws[1..])
    ensures Field(ws, first + rest, i) == Field(ws[1..], rest, i - 1)
  {
    FieldInside(ws, i);
    FieldInside(ws[1..], i - 1);
    assert ws[..i][1..] == ws[1..][..i - 1];
    var start := Width(ws[1..][..i - 1]);
    assert (first + rest)[ws[0] + start..ws[0] + start + ws[i]] == rest[start..start + ws[i]];
  }

  /** Reading a record back gives each field as its own width lets through. */
  lemma {:induction false} FieldOfPack(ws: seq<nat>, vs: seq<nat>, rest: Octets, i: nat)
    requires |ws| == |vs| && i < |ws|
    ensures Field(ws, Pack(ws, vs) + rest, i) == Number(LittleEndian(vs[i], ws[i]))
  {
    var first, tail := LittleEndian(vs[0], ws[0]), Pack(ws[1..], vs[1..]) + rest;
    assert Pack(ws, vs) + rest == first + tail;
    if i == 0 {
      assert (first + tail)[..ws[0]] == first;
    } else {
      FieldOfPack(ws[1..], vs[1..], rest, i - 1);
      FieldOfRest(ws, first, tail, i);
    }
  }
}
