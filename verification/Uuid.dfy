/** Printing, parsing and generating UUIDs (internal/uuid/uuid.go). Texts are
    byte strings. */
module Uuid {
  import opened Results
  import opened Word64
  import opened Bytes
  import opened Isaac64

  type UUID = u: seq<Byte> | |u| == 16 witness seq(16, _ => 0)

  const DASH: Byte := 45
  const QUOTE: Byte := 34

  /** Where each byte of a UUID has its two digits in the text. */
  function Encode(k: nat): nat
    requires k < 16
  {
    [0, 2, 4, 6, 9, 11, 14, 16, 19, 21, 24, 26, 28, 30, 32, 34][k]
  }

  // ---------- Digits ----------

  /** "0123456789abcdef"[n] */
  function HexDigit(n: nat): Byte
    requires n < 16
  {
    if n < 10 then 48 + n else 87 + n
  }

  /** The table of nibbles: 0xff marks a byte that is no hexadecimal digit. */
  function Nibble(c: Byte): (n: Byte)
    ensures n < 16 || n == 0xff
  {
    if 48 <= c <= 57 then c - 48
    else if 65 <= c <= 70 then c - 55
    else if 97 <= c <= 102 then c - 87
    else 0xff
  }

  function LowerByte(c: Byte): Byte
  {
    if 65 <= c <= 90 then c + 32 else c
  }

  function Lower(t: seq<Byte>): (l: seq<Byte>)
    ensures |l| == |t|
  {
    seq(|t|, k requires 0 <= k < |t| => LowerByte(t[k]))
  }

  /** Bytes as hexadecimal digits, two each. */
  function Hex(bs: seq<Byte>): (t: seq<Byte>)
    ensures |t| == 2 * |bs|
  {
    if bs == [] then [] else [HexDigit(bs[0] / 16), HexDigit(bs[0] % 16)] + Hex(bs[1..])
  }

  function Unhex(t: seq<Byte>): (bs: Option<seq<Byte>>)
    requires |t| % 2 == 0
    ensures bs.Some? ==> 2 * |bs.value| == |t|
  {
    if t == [] then Some([])
    else
      var hi, lo := Nibble(t[0]), Nibble(t[1]);
      var rest := Unhex(t[2..]);
      if hi == 0xff || lo == 0xff || rest.None? then None else Some([16 * hi + lo] + rest.value)
  }

  /** The digits, in either case, and nothing else. */
  lemma DigitsAre(c: Byte)
    ensures Nibble(c) != 0xff <==> c as char in "0123456789abcdefABCDEF"
    ensures forall n :: 0 <= n < 16 ==>
      && HexDigit(n) as char == "0123456789abcdef"[n]
      && Nibble("0123456789abcdef"[n] as int) == n && Nibble("0123456789ABCDEF"[n] as int) == n
    ensures LowerByte(c) == (if 'A' as int <= c <= 'Z' as int then c + 32 else c)
  {}

  lemma PrintedDigitsRead(b: Byte)
    ensures Nibble(HexDigit(b / 16)) == b / 16 && Nibble(HexDigit(b % 16)) == b % 16
  {}

  lemma ReadDigitsPrint(c: Byte, d: Byte)
    requires Nibble(c) != 0xff && Nibble(d) != 0xff
    ensures var b := 16 * Nibble(c) + Nibble(d);
      b < 256 && HexDigit(b / 16) == LowerByte(c) && HexDigit(b % 16) == LowerByte(d)
  {}

  lemma {:induction false} UnhexHex(bs: seq<Byte>)
    ensures Unhex(Hex(bs)) == Some(bs)
  {
    if bs != [] {
      UnhexHex(bs[1..]);
      PrintedDigitsRead(bs[0]);
      assert Hex(bs)[2..] == Hex(bs[1..]);
      assert bs == [bs[0]] + bs[1..];
    }
  }

  lemma {:induction false} HexUnhex(t: seq<Byte>)
    requires |t| % 2 == 0 && Unhex(t).Some?
    ensures Hex(Unhex(t).value) == Lower(t)
  {
    if t != [] {
      HexUnhex(t[2..]);
      ReadDigitsPrint(t[0], t[1]);
      assert Unhex(t).value[1..] == Unhex(t[2..]).value;
      assert Lower(t) == [LowerByte(t[0]), LowerByte(t[1])] + Lower(t[2..]);
    }
  }

  lemma {:induction false} HexAppend(a: seq<Byte>, b: seq<Byte>)
    ensures Hex(a + b) == Hex(a) + Hex(b)
  {
    if a == [] {
      assert a + b == b;
    } else {
      HexAppend(a[1..], b);
      assert (a + b)[1..] == a[1..] + b;
    }
  }

  lemma {:induction false} HexAt(bs: seq<Byte>, k: nat)
    requires k < |bs|
    ensures Hex(bs)[2 * k] == HexDigit(bs[k] / 16)
    ensures Hex(bs)[2 * k + 1] == HexDigit(bs[k] % 16)
  {
    if k > 0 {
      HexAt(bs[1..], k - 1);
    }
  }

  // ---------- The text form ----------

  /** Five groups of 8, 4, 4, 4 and 12 digits (RFC 9562 section 4). */
  function Text(u: UUID): (t: seq<Byte>)
    ensures |t| == 36
  {
    Hex(u[..4]) + [DASH] + Hex(u[4..6]) + [DASH] + Hex(u[6..8]) + [DASH] + Hex(u[8..10]) + [DASH] + Hex(u[10..])
  }

  predicate Dashed(t: seq<Byte>)
    requires |t| == 36
  {
    t[8] == DASH && t[13] == DASH && t[18] == DASH && t[23] == DASH
  }

  /** The digits between the dashes. */
  function Digits(t: seq<Byte>): (d: seq<Byte>)
    requires |t| == 36
    ensures |d| == 32
  {
    t[..8] + t[9..13] + t[14..18] + t[19..23] + t[24..]
  }

  /** Byte `k` of a UUID stands at a fixed place of its text, high digit first. */
  lemma TextAt(u: UUID, k: nat)
    requires k < 16
    ensures
      var at := [0, 2, 4, 6, 9, 11, 14, 16, 19, 21, 24, 26, 28, 30, 32, 34][k];
      && Text(u)[at] == HexDigit(u[k] / 16) && Text(u)[at + 1] == HexDigit(u[k] % 16)
    ensures Text(u)[8] == Text(u)[13] == Text(u)[18] == Text(u)[23] == '-' as int
  {
    hide Hex, HexDigit;
    if k < 4 { HexAt(u[..4], k); }
    else if k < 6 { HexAt(u[4..6], k - 4); }
    else if k < 8 { HexAt(u[6..8], k - 6); }
    else if k < 10 { HexAt(u[8..10], k - 8); }
    else { HexAt(u[10..], k - 10); }
  }

  /** What a text denotes, if it denotes a UUID. */
  function Meaning(t: seq<Byte>): (r: Option<UUID>)
  {
    if |t| == 36 && Dashed(t) then Unhex(Digits(t)) else None
  }

  lemma DigitsOfText(u: UUID)
    ensures Dashed(Text(u)) && Digits(Text(u)) == Hex(u)
  {
    hide Hex;
    var t := Text(u);
    assert t[..8] == Hex(u[..4]) && t[9..13] == Hex(u[4..6]);
    assert t[14..18] == Hex(u[6..8]) && t[19..23] == Hex(u[8..10]) && t[24..] == Hex(u[10..]);
    HexAppend(u[..4], u[4..6]);
    HexAppend(u[..6], u[6..8]);
    HexAppend(u[..8], u[8..10]);
    HexAppend(u[..10], u[10..]);
    assert u[..6] == u[..4] + u[4..6];
    assert u[..8] == u[..6] + u[6..8];
    assert u[..10] == u[..8] + u[8..10];
    assert u == u[..10] + u[10..];
  }

  lemma DigitsAndDashes(t: seq<Byte>, t': seq<Byte>)
    requires |t| == |t'| == 36 && Dashed(t) && Dashed(t') && Digits(t) == Digits(t')
    ensures t == t'
  {
    var d := Digits(t);
    forall k | 0 <= k < 36
      ensures t[k] == t'[k]
    {
      if k < 8 {
        assert d[k] == t[k] == t'[k];
      } else if 8 < k < 13 {
        assert d[k - 1] == t[k] == t'[k];
      } else if 13 < k < 18 {
        assert d[k - 2] == t[k] == t'[k];
      } else if 18 < k < 23 {
        assert d[k - 3] == t[k] == t'[k];
      } else if 23 < k {
        assert d[k - 4] == t[k] == t'[k];
      }
    }
  }

  /** Printing loses nothing. */
  lemma ParsePrinted(u: UUID)
    ensures Meaning(Text(u)) == Some(u)
  {
    hide Hex, Text, Digits, Dashed;
    DigitsOfText(u);
    UnhexHex(u);
  }

  /** Parsing forgets only the case of the digits. */
  lemma PrintParsed(t: seq<Byte>)
    requires Meaning(t).Some?
    ensures Text(Meaning(t).value) == Lower(t)
  {
    var u := Meaning(t).value;
    HexUnhex(Digits(t));
    DigitsOfText(u);
    assert Lower(Digits(t)) == Digits(Lower(t));
    hide Hex, Text, Digits;
    DigitsAndDashes(Text(u), Lower(t));
  }

  lemma {:induction false} UnhexAppend(t: seq<Byte>, hi: Byte, lo: Byte)
    requires |t| % 2 == 0 && Unhex(t).Some? && Nibble(hi) != 0xff && Nibble(lo) != 0xff
    ensures Unhex(t + [hi, lo]) == Some(Unhex(t).value + [16 * Nibble(hi) + Nibble(lo)])
  {
    if t == [] {
      assert t + [hi, lo] == [hi, lo] && [hi, lo][2..] == [];
      var b := 16 * Nibble(hi) + Nibble(lo);
      assert Unhex([]) == Some([]) && [b] + [] == [] + [b];
    } else {
      UnhexAppend(t[2..], hi, lo);
      var all := t + [hi, lo];
      assert all[2..] == t[2..] + [hi, lo] && all[0] == t[0] && all[1] == t[1];
      var first, last := 16 * Nibble(t[0]) + Nibble(t[1]), 16 * Nibble(hi) + Nibble(lo);
      var rest := Unhex(t[2..]).value;
      assert [first] + (rest + [last]) == ([first] + rest) + [last];
    }
  }

  predicate IsHexDigit(c: Byte)
  {
    c as char in "0123456789abcdefABCDEF"
  }

  /** The places of the digits: all but those of the dashes. */
  lemma DigitPlaces(t: seq<Byte>)
    requires |t| == 36
    ensures (forall k :: 0 <= k < 32 ==> IsHexDigit(Digits(t)[k]))
       <==> (forall k :: 0 <= k < 36 && k !in {8, 13, 18, 23} ==> IsHexDigit(t[k]))
  {
    hide IsHexDigit;
    var d := Digits(t);
    if forall k :: 0 <= k < 36 && k !in {8, 13, 18, 23} ==> IsHexDigit(t[k]) {
      forall k | 0 <= k < 32
        ensures IsHexDigit(d[k])
      {
        var at := if k < 8 then k else if k < 12 then k + 1 else if k < 16 then k + 2
                  else if k < 20 then k + 3 else k + 4;
        assert d[k] == t[at] && at !in {8, 13, 18, 23};
      }
    }
    if forall k :: 0 <= k < 32 ==> IsHexDigit(d[k]) {
      forall k | 0 <= k < 36 && k !in {8, 13, 18, 23}
        ensures IsHexDigit(t[k])
      {
        var at := if k < 8 then k else if k < 13 then k - 1 else if k < 18 then k - 2
                  else if k < 23 then k - 3 else k - 4;
        assert t[k] == d[at];
      }
    }
  }

  lemma NibblesAre(d: seq<Byte>)
    ensures (forall k :: 0 <= k < |d| ==> Nibble(d[k]) != 0xff) <==> (forall k :: 0 <= k < |d| ==> IsHexDigit(d[k]))
  {
    forall c: Byte
      ensures Nibble(c) != 0xff <==> IsHexDigit(c)
    {
      DigitsAre(c);
    }
    hide Nibble, IsHexDigit;
  }

  /** Exactly what is accepted: 36 bytes, dashes after the groups, and digits of
      either case elsewhere. */
  lemma AcceptsIff(t: seq<Byte>)
    ensures Meaning(t).Some? <==>
      && |t| == 36 && t[8] as char == t[13] as char == t[18] as char == t[23] as char == '-'
      && forall k :: 0 <= k < 36 && k !in {8, 13, 18, 23} ==> IsHexDigit(t[k])
  {
    hide Nibble, Unhex, IsHexDigit, Digits;
    if |t| == 36 && Dashed(t) {
      UnhexAccepts(Digits(t));
      NibblesAre(Digits(t));
      DigitPlaces(t);
    }
  }

  /** A digit string reads just when every byte of it is a digit. */
  lemma {:induction false} UnhexAccepts(t: seq<Byte>)
    requires |t| % 2 == 0
    ensures Unhex(t).Some? <==> forall k :: 0 <= k < |t| ==> Nibble(t[k]) != 0xff
  {
    if t != [] {
      UnhexAccepts(t[2..]);
      if forall k :: 0 <= k < |t[2..]| ==> Nibble(t[2..][k]) != 0xff {
        assert forall k :: 2 <= k < |t| ==> Nibble(t[2..][k - 2]) == Nibble(t[k]);
      }
    }
  }

  /** One byte more of `d`: either it reads, or no part of `d` counts. */
  lemma UnhexPair(d: seq<Byte>, m: nat)
    requires |d| % 2 == 0 && m % 2 == 0 && m + 2 <= |d| && Unhex(d[..m]).Some?
    ensures Nibble(d[m]) == 0xff || Nibble(d[m + 1]) == 0xff ==> Unhex(d) == None
    ensures Nibble(d[m]) != 0xff && Nibble(d[m + 1]) != 0xff ==>
      && 16 * Nibble(d[m]) + Nibble(d[m + 1]) < 256
      && Unhex(d[..m + 2]) == Some(Unhex(d[..m]).value + [16 * Nibble(d[m]) + Nibble(d[m + 1])])
  {
    hide Unhex, Nibble;
    if Nibble(d[m]) == 0xff {
      UnhexRefuses(d, m);
    } else if Nibble(d[m + 1]) == 0xff {
      UnhexRefuses(d, m + 1);
    } else {
      UnhexAppend(d[..m], d[m], d[m + 1]);
      NextPair(d, m);
    }
  }

  lemma NextPair(d: seq<Byte>, m: nat)
    requires m + 2 <= |d|
    ensures d[..m + 2] == d[..m] + [d[m], d[m + 1]]
  {}

  lemma UnhexRefuses(d: seq<Byte>, m: nat)
    requires |d| % 2 == 0 && m < |d| && Nibble(d[m]) == 0xff
    ensures Unhex(d) == None
  {
    hide Unhex, Nibble;
    UnhexAccepts(d);
  }

  // ---------- The index-table loops ----------

  /** The table agrees with the grouping. */
  lemma TablePlacesDigits(t: seq<Byte>, k: nat)
    requires |t| == 36 && k < 16
    ensures Encode(k) + 1 < 36
    ensures Digits(t)[2 * k] == t[Encode(k)] && Digits(t)[2 * k + 1] == t[Encode(k) + 1]
  {}

  lemma TableFits(k: nat)
    requires k < 16
    ensures Encode(k) + 1 < 36
    ensures Encode(k) !in {8, 13, 18, 23} && Encode(k) + 1 !in {8, 13, 18, 23}
  {}

  lemma TableIsInjective(j: nat, k: nat)
    requires j < k < 16
    ensures Encode(j) + 1 < Encode(k)
  {}

  /** `hexify`: writes the text of `u` at `buf[from..]`, and nothing else. */
  method Hexify(u: UUID, buf: array<Byte>, from: nat)
    requires from + 36 <= buf.Length
    modifies buf
    ensures buf[from..from + 36] == Text(u)
    ensures buf[..from] == old(buf[..from]) && buf[from + 36..] == old(buf[from + 36..])
  {
    hide Text, Hex, Encode, HexDigit;
    buf[from + 8] := DASH;
    buf[from + 13] := DASH;
    buf[from + 18] := DASH;
    buf[from + 23] := DASH;
    for k := 0 to 16
      invariant Dashed(buf[from..from + 36])
      invariant forall j :: 0 <= j < k ==> Placed(buf[from..from + 36], j, u[j])
      invariant buf[..from] == old(buf[..from]) && buf[from + 36..] == old(buf[from + 36..])
    {
      TableFits(k);
      ghost var before := buf[from..from + 36];
      buf[from + Encode(k)] := HexDigit(u[k] / 16);
      buf[from + Encode(k) + 1] := HexDigit(u[k] % 16);
      ghost var after := buf[from..from + 36];
      forall j | 0 <= j < k
        ensures Placed(after, j, u[j])
      {
        TableFits(j);
        TableIsInjective(j, k);
      }
    }
    PlacedIsText(u, buf[from..from + 36]);
  }

  /** The digits of `b` stand where the table puts byte `k`. */
  ghost predicate Placed(t: seq<Byte>, k: nat, b: Byte)
    requires |t| == 36 && k < 16
  {
    Encode(k) + 1 < 36 && t[Encode(k)] == HexDigit(b / 16) && t[Encode(k) + 1] == HexDigit(b % 16)
  }

  lemma PlacedIsText(u: UUID, t: seq<Byte>)
    requires |t| == 36 && Dashed(t)
    requires forall k :: 0 <= k < 16 ==> Placed(t, k, u[k])
    ensures t == Text(u)
  {
    hide Text, Hex, Encode, HexDigit, Digits, Dashed;
    DigitsOfText(u);
    forall p | 0 <= p < 32
      ensures Digits(t)[p] == Hex(u)[p]
    {
      assert Placed(t, p / 2, u[p / 2]);
      TablePlacesDigits(t, p / 2);
      HexAt(u, p / 2);
    }
    DigitsAndDashes(t, Text(u));
  }

  /** `ParseBytes`. */
  method ParseBytes(buf: seq<Byte>) returns (r: Option<UUID>)
    ensures r == Meaning(buf)
  {
    if |buf| != 36 {
      return None;
    }
    if buf[8] != DASH || buf[13] != DASH || buf[18] != DASH || buf[23] != DASH {
      return None;
    }
    ghost var d := Digits(buf);
    assert Unhex(d[..0]) == Some([]);
    hide Encode, Nibble, Digits, Unhex, Dashed;
    var u: seq<Byte> := [];
    ghost var m := 0;
    for k := 0 to 16
      invariant |u| == k && m == 2 * k
      invariant Unhex(d[..m]) == Some(u)
    {
      ReadsPair(buf, k, m, u);
      var hi, lo := Nibble(buf[Encode(k)]), Nibble(buf[Encode(k) + 1]);
      if hi == 0xff || lo == 0xff {
        return None;
      }
      u := u + [16 * hi + lo];
      m := m + 2;
    }
    assert d[..32] == d;
    return Some(u);
  }

  /** One turn of the loop, through the table. */
  lemma ReadsPair(buf: seq<Byte>, k: nat, m: nat, u: seq<Byte>)
    requires |buf| == 36 && k < 16 && m == 2 * k && Unhex(Digits(buf)[..m]) == Some(u)
    ensures Encode(k) + 1 < 36
    ensures
      var hi, lo := Nibble(buf[Encode(k)]), Nibble(buf[Encode(k) + 1]);
      if hi == 0xff || lo == 0xff then Unhex(Digits(buf)) == None
      else 16 * hi + lo < 256 && Unhex(Digits(buf)[..m + 2]) == Some(u + [16 * hi + lo])
  {
    hide Encode, Nibble, Digits, Unhex;
    TablePlacesDigits(buf, k);
    UnhexPair(Digits(buf), m);
  }

  /** `String`. */
  method ToString(u: UUID) returns (t: seq<Byte>)
    ensures t == Text(u)
  {
    var buf := new Byte[36](_ => 0);
    Hexify(u, buf, 0);
    t := buf[..];
    assert t == buf[0..36];
  }

  // ---------- JSON and binary forms ----------

  function Json(u: UUID): seq<Byte> { [QUOTE] + Text(u) + [QUOTE] }

  function JsonMeaning(t: seq<Byte>): Option<UUID>
  {
    if |t| == 38 && t[0] == QUOTE && t[37] == QUOTE then Meaning(t[1..37]) else None
  }

  method MarshalJSON(u: UUID) returns (t: seq<Byte>)
    ensures t == Json(u)
  {
    hide Text;
    var buf := new Byte[38](_ => 0);
    buf[0] := QUOTE;
    Hexify(u, buf, 1);
    assert buf[..1] == [QUOTE];
    buf[37] := QUOTE;
    t := buf[..];
    assert buf[1..37] == Text(u);
    assert t == buf[..1] + buf[1..37] + [buf[37]];
  }

  /** On an error the receiver keeps its value. */
  method UnmarshalJSON(u: UUID, buf: seq<Byte>) returns (ok: bool, u': UUID)
    ensures ok == JsonMeaning(buf).Some?
    ensures u' == if ok then JsonMeaning(buf).value else u
  {
    if |buf| != 38 || buf[0] != QUOTE || buf[37] != QUOTE {
      return false, u;
    }
    var r := ParseBytes(buf[1..37]);
    if r.None? {
      return false, u;
    }
    return true, r.value;
  }

  lemma JsonRoundTrips(u: UUID)
    ensures JsonMeaning(Json(u)) == Some(u)
  {
    hide Text, Meaning;
    assert Json(u)[1..37] == Text(u);
    ParsePrinted(u);
  }

  lemma JsonReprints(t: seq<Byte>)
    requires JsonMeaning(t).Some?
    ensures Json(JsonMeaning(t).value) == Lower(t)
  {
    hide Text, Meaning;
    PrintParsed(t[1..37]);
    assert t == [QUOTE] + t[1..37] + [QUOTE];
    assert Lower(t) == [QUOTE] + Lower(t[1..37]) + [QUOTE];
  }

  /** `UnmarshalBinary` takes the first 16 bytes of whatever it is given. */
  method UnmarshalBinary(u: UUID, data: seq<Byte>) returns (ok: bool, u': UUID)
    ensures ok == (|data| >= 16)
    ensures if ok then u' <= data else u' == u
  {
    if |data| < 16 {
      return false, u;
    }
    return true, data[..16];
  }

  // ---------- Version 4 ----------

  /** Two words with the version and variant bits written over. */
  function V4(w0: Word, w1: Word): UUID
  {
    var u := PutUint64(w0) + PutUint64(w1);
    u[6 := u[6] % 16 + 0x40][8 := u[8] % 64 + 0x80]
  }

  /** Every byte of a version 4 UUID, from the two words it is drawn from. */
  lemma V4Means(w0: Word, w1: Word, i: nat)
    requires i < 16
    ensures
      var drawn := (if i < 8 then w0 / Pow256(i) else w1 / Pow256(i - 8)) % 256;
      V4(w0, w1)[i] == if i == 6 then 0x40 + drawn % 16 else if i == 8 then 0x80 + drawn % 64 else drawn
  {
    hide Pow256, PutUint64;
    if i < 8 {
      LittleEndianMeans(w0, i);
    } else {
      LittleEndianMeans(w1, i - 8);
    }
  }

  /** `NewV4` consumes exactly two words of the generator's stream. */
  method NewV4(r: Rand) returns (u: UUID)
    requires r.Valid()
    modifies r, r.buf, r.out
    ensures r.Valid() && r.start == old(r.start) && r.Drawn() == old(r.Drawn()) + 2
    ensures u == V4(StreamWord(r.start, old(r.Drawn())), StreamWord(r.start, old(r.Drawn()) + 1))
  {
    hide StreamWord, PutUint64;
    var w0 := r.Uint64();
    var w1 := r.Uint64();
    u := PutUint64(w0) + PutUint64(w1);
    u := u[6 := u[6] % 16 + 0x40];
    u := u[8 := u[8] % 64 + 0x80];
  }

  /** Version 4 and the variant, in the bits (RFC 9562 section 5.4) and so in
      the text: the third group starts with `4`, the fourth with `8`, `9`, `a`
      or `b`. */
  lemma V4IsMarked(w0: Word, w1: Word)
    ensures V4(w0, w1)[6] / 16 == 4 && V4(w0, w1)[8] / 64 == 2
    ensures Text(V4(w0, w1))[14] == 52
    ensures Text(V4(w0, w1))[19] in {56, 57, 97, 98}
  {
    hide PutUint64, Hex, Text;
    var u := V4(w0, w1);
    DigitsOfText(u);
    HexAt(u, 6);
    HexAt(u, 8);
    TablePlacesDigits(Text(u), 6);
    TablePlacesDigits(Text(u), 8);
    assert u[8] / 16 in {8, 9, 10, 11};
  }

  /** All else is the generator's: only those six bits are lost. */
  lemma V4KeepsTheRest(w0: Word, w1: Word, w0': Word, w1': Word)
    requires V4(w0, w1) == V4(w0', w1')
    requires PutUint64(w0)[6] / 16 == PutUint64(w0')[6] / 16
    requires PutUint64(w1)[0] / 64 == PutUint64(w1')[0] / 64
    ensures w0 == w0' && w1 == w1'
  {
    hide PutUint64, ReadUint64;
    var u, u' := PutUint64(w0) + PutUint64(w1), PutUint64(w0') + PutUint64(w1');
    forall k | 0 <= k < 16
      ensures u[k] == u'[k]
    {
      assert V4(w0, w1)[k] == V4(w0', w1')[k];
    }
    assert u == u';
    assert PutUint64(w0) == u[..8] == PutUint64(w0');
    assert PutUint64(w1) == u[8..] == PutUint64(w1');
    LittleEndianRoundTrips(w0, PutUint64(w0));
    LittleEndianRoundTrips(w1, PutUint64(w1));
    LittleEndianRoundTrips(w0', PutUint64(w0'));
    LittleEndianRoundTrips(w1', PutUint64(w1'));
  }
}
