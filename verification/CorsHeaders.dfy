/** The header-list tokenizer of the CORS middleware
    (internal/middlewares/cors/utils.go). */
module CorsHeaders {

  predicate IsSeparator(b: char) { b == ' ' || b == ',' }

  predicate IsLower(b: char) { 'a' <= b <= 'z' }

  predicate IsUpper(b: char) { 'A' <= b <= 'Z' }

  /** The bytes a token keeps. */
  predicate IsTokenByte(b: char)
  {
    IsLower(b) || IsUpper(b) || b == '-' || b == '_' || b == '.' || '0' <= b <= '9'
  }

  function ToUpper(b: char): char { if IsLower(b) then b - 32 as char else b }

  function ToLower(b: char): char { if IsUpper(b) then b + 32 as char else b }

  /** The bytes in full: what a header keeps, what ends it, and the two cases. */
  lemma BytesAre(b: char)
    ensures IsTokenByte(b) <==>
      b in "abcdefghijklmnopqrstuvwxyz" || b in "ABCDEFGHIJKLMNOPQRSTUVWXYZ" || b in "-_.0123456789"
    ensures IsSeparator(b) <==> b in " ,"
    ensures b !in "abcdefghijklmnopqrstuvwxyz" ==> ToUpper(b) == b
    ensures b !in "ABCDEFGHIJKLMNOPQRSTUVWXYZ" ==> ToLower(b) == b
  {
    LowersAre(b);
    UppersAre(b);
    hide IsLower, IsUpper;
    assert '0' <= b <= '9' <==> b in "0123456789";
  }

  lemma LowersAre(b: char)
    ensures IsLower(b) <==> b in "abcdefghijklmnopqrstuvwxyz"
  {}

  lemma UppersAre(b: char)
    ensures IsUpper(b) <==> b in "ABCDEFGHIJKLMNOPQRSTUVWXYZ"
  {}

  lemma CasesAre(i: nat)
    requires i < 26
    ensures ToUpper("abcdefghijklmnopqrstuvwxyz"[i]) == "ABCDEFGHIJKLMNOPQRSTUVWXYZ"[i]
    ensures ToLower("ABCDEFGHIJKLMNOPQRSTUVWXYZ"[i]) == "abcdefghijklmnopqrstuvwxyz"[i]
  {}

  // ---------- The reference: split, drop empties, canonicalise ----------

  function TokenEnd(s: string): (n: nat)
    ensures n <= |s| && (forall i :: 0 <= i < n ==> !IsSeparator(s[i])) && (n < |s| ==> IsSeparator(s[n]))
  {
    if s == "" || IsSeparator(s[0]) then 0 else 1 + TokenEnd(s[1..])
  }

  /** The non-empty pieces between separators. */
  function Tokens(s: string): seq<string>
    decreases |s|
  {
    if s == "" then []
    else if IsSeparator(s[0]) then Tokens(s[1..])
    else [s[..TokenEnd(s)]] + Tokens(s[TokenEnd(s)..])
  }

  /** Upper case at the start and after each dash, lower case elsewhere. */
  function Canonical(t: string, upper: bool := true): (c: string)
    ensures |c| == |t|
  {
    if t == "" then "" else [if upper then ToUpper(t[0]) else ToLower(t[0])] + Canonical(t[1..], t[0] == '-')
  }

  /** Byte by byte: upper case at the start and after a dash, else lower. */
  lemma {:induction false} CanonicalAt(t: string, upper: bool, i: nat)
    requires i < |t|
    ensures Canonical(t, upper)[i]
      == if (if i == 0 then upper else t[i - 1] == '-') then ToUpper(t[i]) else ToLower(t[i])
  {
    if i > 0 {
      CanonicalAt(t[1..], t[0] == '-', i - 1);
      hide ToUpper, ToLower;
      assert Canonical(t, upper)[1..] == Canonical(t[1..], t[0] == '-');
    }
  }

  function CanonicalAll(ts: seq<string>): (cs: seq<string>)
    ensures |cs| == |ts| && forall i :: 0 <= i < |ts| ==> cs[i] == Canonical(ts[i])
  {
    if ts == [] then [] else [Canonical(ts[0])] + CanonicalAll(ts[1..])
  }

  // ---------- The one-pass tokenizer ----------

  /** What byte `b` adds to the token being read. */
  function Kept(b: char, upper: bool): string
  {
    if IsTokenByte(b) then [if upper then ToUpper(b) else ToLower(b)] else ""
  }

  /** The headers still to come, with `h` read of the current one. */
  function Scan(rest: string, h: string, upper: bool): seq<string>
    decreases |rest|
  {
    if rest == "" then
      if h == "" then [] else [h]
    else if IsSeparator(rest[0]) then
      if h == "" then Scan(rest[1..], "", upper) else [h] + Scan(rest[1..], "", true)
    else
      Scan(rest[1..], h + Kept(rest[0], upper), rest[0] == '-')
  }

  /** `parseHeaderList`. */
  method ParseHeaderList(headerList: string) returns (headers: seq<string>)
    ensures headers == Scan(headerList, "", true)
  {
    var l := |headerList|;
    var h, upper := "", true;
    headers := [];
    for i := 0 to l
      invariant headers + Scan(headerList[i..], h, upper) == Scan(headerList, "", true)
      invariant i == l ==> h == ""
    {
      var b := headerList[i];
      ghost var rest := headerList[i..];
      assert rest[0] == b && rest[1..] == headerList[i + 1..];
      ghost var h0, upper0 := h, upper;
      if IsLower(b) {
        h := h + [if upper then ToUpper(b) else b];
      } else if IsUpper(b) {
        h := h + [if !upper then ToLower(b) else b];
      } else if b == '-' || b == '_' || b == '.' || '0' <= b <= '9' {
        h := h + [b];
      }
      assert h == h0 + Kept(b, upper0);
      if IsSeparator(b) || i == l - 1 {
        if |h| > 0 {
          headers := headers + [h];
          h := "";
          upper := true;
        }
      } else {
        upper := b == '-';
      }
    }
    assert headerList[l..] == "";
  }

  // ---------- On clean strings the two agree ----------

  predicate IsClean(s: string)
  {
    forall i :: 0 <= i < |s| ==> IsTokenByte(s[i]) || IsSeparator(s[i])
  }

  /** One token, up to the separator or the end that closes it. */
  lemma {:induction false} ScanToken(t: string, after: string, h: string, upper: bool)
    requires h + t != "" && (forall i :: 0 <= i < |t| ==> IsTokenByte(t[i]))
    requires after != "" ==> IsSeparator(after[0])
    ensures Scan(t + after, h, upper) == [h + Canonical(t, upper)] + Scan(after, "", true)
    decreases |t|
  {
    if t == "" {
      assert t + after == after && h + Canonical(t, upper) == h;
    } else {
      var h' := h + Kept(t[0], upper);
      assert (t + after)[1..] == t[1..] + after;
      assert h' + Canonical(t[1..], t[0] == '-') == h + Canonical(t, upper);
      ScanToken(t[1..], after, h', t[0] == '-');
    }
  }

  lemma {:induction false} CleanScansCanonically(s: string)
    requires IsClean(s)
    ensures Scan(s, "", true) == CanonicalAll(Tokens(s))
    decreases |s|
  {
    if s != "" {
      if IsSeparator(s[0]) {
        CleanScansCanonically(s[1..]);
      } else {
        var n := TokenEnd(s);
        CleanScansCanonically(s[n..]);
        ScanToken(s[..n], s[n..], "", true);
        assert s == s[..n] + s[n..];
        assert "" + Canonical(s[..n], true) == Canonical(s[..n]);
      }
    }
  }

  // ---------- Stray bytes: when the two still agree ----------

  predicate IsStray(b: char) { !IsTokenByte(b) && !IsSeparator(b) }

  predicate IsLetter(b: char) { IsLower(b) || IsUpper(b) }

  /** The string without its stray bytes. */
  function Strip(s: string): (t: string)
    ensures IsClean(t)
  {
    if s == "" then "" else (if IsStray(s[0]) then "" else [s[0]]) + Strip(s[1..])
  }

  /** Whether a letter right after `before` is due a capital. */
  predicate Capital(before: char) { IsSeparator(before) || before == '-' }

  /** Whether some letter of `rest` loses its capital: `before` is the last byte
      that was not stray, and `on` says whether the capital is still to come. */
  predicate Loses(rest: string, before: char, on: bool)
    decreases |rest|
  {
    if rest == "" then false
    else
      var b, tail := rest[0], rest[1..];
      if IsSeparator(b) then Loses(tail, b, on || !IsSeparator(before))
      else if IsStray(b) then Loses(tail, before, false)
      else (IsLetter(b) && Capital(before) && !on) || Loses(tail, b, b == '-')
  }

  /** The same header bytes with and without the stray ones: equal just when
      they were equal so far and no letter loses its capital. */
  lemma {:induction false} StripScans(rest: string, h: string, h': string, before: char, on: bool)
    requires |h| == |h'| && (h == "" <==> IsSeparator(before)) && (on ==> Capital(before))
    ensures Scan(rest, h, on) == Scan(Strip(rest), h', Capital(before)) <==> h == h' && !Loses(rest, before, on)
    decreases |rest|
  {
    if rest != "" {
      var b, tail := rest[0], rest[1..];
      if IsStray(b) {
        assert Strip(rest) == Strip(tail) && h + Kept(b, on) == h;
        StripScans(tail, h, h', before, false);
      } else {
        assert Strip(rest) == [b] + Strip(tail);
        assert Strip(rest)[0] == b && Strip(rest)[1..] == Strip(tail);
        if IsSeparator(b) {
          StripScans(tail, "", "", b, on || h != "");
          HeadersEqual(h, Scan(tail, "", true), h', Scan(Strip(tail), "", true));
        } else {
          var k, k' := Kept(b, on), Kept(b, Capital(before));
          assert k == k' <==> !(IsLetter(b) && Capital(before) && !on);
          assert h + k == h' + k' <==> h == h' && k == k' by { AppendedEqual(h, k, h', k'); }
          StripScans(tail, h + k, h' + k', b, b == '-');
        }
      }
    }
  }

  lemma HeadersEqual(h: string, more: seq<string>, h': string, more': seq<string>)
    ensures [h] + more == [h'] + more' <==> h == h' && more == more'
  {
    assert more == ([h] + more)[1..] && more' == ([h'] + more')[1..];
  }

  lemma AppendedEqual(h: string, k: string, h': string, k': string)
    requires |h| == |h'|
    ensures h + k == h' + k' <==> h == h' && k == k'
  {
    if h + k == h' + k' {
      assert h == (h + k)[..|h|] && h' == (h' + k')[..|h'|];
      assert k == (h + k)[|h|..] && k' == (h' + k')[|h'|..];
    }
  }

  /** The last byte of `s` that is not stray, or `before`. */
  function Last(s: string, before: char): char
  {
    if s == "" then before else Last(s[1..], if IsStray(s[0]) then before else s[0])
  }

  /** `rest[j]` is the letter whose capital a stray byte before `rest` takes: no
      header byte comes first, nor, within a header, a separator. */
  predicate Robbed(rest: string, before: char, j: nat)
  {
    && j < |rest| && IsLetter(rest[j])
    && (forall k :: 0 <= k < j ==> !IsTokenByte(rest[k]))
    && (IsSeparator(before) || forall k :: 0 <= k < j ==> !IsSeparator(rest[k]))
  }

  /** The stray byte `s[i]` takes the capital of the letter `s[j]`: it stands
      before a header or after a dash, and nothing but stray bytes follow it up
      to the letter; before a header, also separators. */
  predicate Robs(s: string, before: char, i: nat, j: nat)
  {
    && i < j < |s| && IsStray(s[i])
    && Capital(Last(s[..i], before)) && Robbed(s[i + 1..], Last(s[..i], before), j - i - 1)
  }

  ghost predicate SomeRobbed(rest: string, before: char)
  {
    exists j: nat :: Robbed(rest, before, j)
  }

  ghost predicate SomeRobs(s: string, before: char)
  {
    exists i: nat, j: nat :: Robs(s, before, i, j)
  }

  lemma RobbedNext(rest: string, before: char)
    requires rest != ""
    ensures
      var b, tail := rest[0], rest[1..];
      SomeRobbed(rest, before) <==>
        if IsTokenByte(b) then IsLetter(b)
        else if IsSeparator(b) then IsSeparator(before) && SomeRobbed(tail, b)
        else SomeRobbed(tail, before)
  {
    var b, tail := rest[0], rest[1..];
    var before' := if IsStray(b) then before else b;
    if j: nat :| Robbed(rest, before, j) {
      if j > 0 {
        assert forall k :: 0 <= k < j - 1 ==> tail[k] == rest[k + 1];
        assert rest[0] == b && Robbed(tail, before', j - 1);
      }
    }
    if IsLetter(b) {
      assert Robbed(rest, before, 0);
    } else if !IsTokenByte(b) && (IsStray(b) || IsSeparator(before)) {
      if j: nat :| Robbed(tail, before', j) {
        assert forall k :: 0 < k < j + 1 ==> rest[k] == tail[k - 1];
        assert rest[j + 1] == tail[j];
        assert Robbed(rest, before, j + 1);
      }
    }
  }

  lemma RobsNext(s: string, before: char)
    requires s != ""
    ensures
      var b, tail := s[0], s[1..];
      SomeRobs(s, before) <==>
        || (IsStray(b) && Capital(before) && SomeRobbed(tail, before))
        || SomeRobs(tail, if IsStray(b) then before else b)
  {
    hide Robs, Robbed;
    var b, tail := s[0], s[1..];
    var before' := if IsStray(b) then before else b;
    if i: nat, j: nat :| Robs(s, before, i, j) {
      RobsInside(s, before, i, j);
      if i == 0 {
        RobsFirst(s, before, j - 1);
      } else {
        RobsShifted(s, before, i - 1, j - 1);
      }
    }
    if IsStray(b) && Capital(before) && SomeRobbed(tail, before) {
      var j: nat :| Robbed(tail, before, j);
      RobsFirst(s, before, j);
    }
    if i: nat, j: nat :| Robs(tail, before', i, j) {
      RobsShifted(s, before, i, j);
    }
  }

  lemma RobsInside(s: string, before: char, i: nat, j: nat)
    requires Robs(s, before, i, j)
    ensures i < j < |s|
  {}

  lemma RobsFirst(s: string, before: char, j: nat)
    requires s != ""
    ensures Robs(s, before, 0, j + 1) <==> IsStray(s[0]) && Capital(before) && Robbed(s[1..], before, j)
  {
    RobbedIsInside(s[1..], before, j);
    hide Robbed;
    assert s[..0] == "";
  }

  lemma RobsShifted(s: string, before: char, i: nat, j: nat)
    requires s != ""
    ensures Robs(s, before, i + 1, j + 1) <==> Robs(s[1..], if IsStray(s[0]) then before else s[0], i, j)
  {
    hide Robbed;
    if i < j && j + 1 < |s| {
      assert s[..i + 1][1..] == s[1..][..i] && s[i + 2..] == s[1..][i + 1..];
    }
  }

  lemma RobbedIsInside(rest: string, before: char, j: nat)
    ensures Robbed(rest, before, j) ==> j < |rest|
  {}

  lemma {:induction false} LosesIff(rest: string, before: char, on: bool)
    requires on ==> Capital(before)
    ensures Loses(rest, before, on) <==> (Capital(before) && !on && SomeRobbed(rest, before)) || SomeRobs(rest, before)
    decreases |rest|
  {
    if rest != "" {
      var b, tail := rest[0], rest[1..];
      RobbedNext(rest, before);
      RobsNext(rest, before);
      hide SomeRobbed, SomeRobs;
      if IsSeparator(b) {
        LosesIff(tail, b, on || !IsSeparator(before));
      } else if IsStray(b) {
        LosesIff(tail, before, false);
      } else {
        LosesIff(tail, b, b == '-');
      }
    }
  }

  /** Exactly when, for every string: the headers are the canonical non-empty
      pieces of what is left without stray bytes if and only if no stray byte
      takes a letter's capital. */
  lemma CanonicalIff(s: string)
    ensures Scan(s, "", true) == CanonicalAll(Tokens(Strip(s))) <==> !SomeRobs(s, ' ')
  {
    hide Loses, Robs;
    CleanScansCanonically(Strip(s));
    StripScans(s, "", "", ' ', true);
    LosesIff(s, ' ', true);
  }

  /** A stray byte before a header takes its capital. */
  lemma StrayByteSpoilsTheCase()
    ensures Scan("! a", "", true) == ["a"] != CanonicalAll(["a"])
    ensures Robs("! a", ' ', 0, 2) && Scan("! a", "", true) != CanonicalAll(Tokens(Strip("! a")))
  {
    SpoiledScan();
    hide Scan, Canonical, CanonicalAll, Tokens, Strip;
    assert "! a"[..0] == "" && "! a"[1..] == " a";
    CanonicalIff("! a");
  }

  lemma SpoiledScan()
    ensures Scan("! a", "", true) == ["a"] != CanonicalAll(["a"])
  {
    assert "! a"[1..] == " a" && " a"[1..] == "a" && "a"[1..] == "";
    assert "" + Kept('!', true) == "" && "" + Kept('a', false) == "a";
    hide Kept, IsTokenByte, ToUpper;
    assert Scan("! a", "", true) == Scan(" a", "", false);
    assert Scan(" a", "", false) == Scan("a", "", false);
    assert Scan("a", "", false) == Scan("", "a", false);
    CapitalA();
  }

  lemma CapitalA()
    ensures CanonicalAll(["a"]) == ["A"]
  {
    assert "a"[1..] == "" && ["a"][1..] == [];
    assert Canonical("a") == "A" + Canonical("", false) == "A";
    assert CanonicalAll(["a"]) == [Canonical("a")] + CanonicalAll([]);
  }

  /** One that ends a header takes nothing from the next. */
  lemma StrayByteMayBeHarmless()
    ensures Scan("b! a", "", true) == CanonicalAll(Tokens(Strip("b! a")))
  {
    assert "b! a"[1..] == "! a" && "! a"[1..] == " a" && " a"[1..] == "a";
    assert !Loses("b! a", ' ', true);
    hide Scan, CanonicalAll, Tokens, Strip, Loses;
    LosesIff("b! a", ' ', true);
    CanonicalIff("b! a");
  }

  // ---------- Re-parsing ----------

  predicate IsToken(t: string)
  {
    t != "" && forall i :: 0 <= i < |t| ==> IsTokenByte(t[i])
  }

  predicate AreTokens(ts: seq<string>)
  {
    forall i :: 0 <= i < |ts| ==> IsToken(ts[i])
  }

  /** Whatever the input, what comes out are tokens. */
  lemma {:induction false} ScanYieldsTokens(rest: string, h: string, upper: bool)
    requires h == "" || IsToken(h)
    ensures AreTokens(Scan(rest, h, upper))
    decreases |rest|
  {
    if rest != "" {
      if IsSeparator(rest[0]) {
        ScanYieldsTokens(rest[1..], "", upper || h != "");
      } else {
        var h' := h + Kept(rest[0], upper);
        assert h' == "" || IsToken(h');
        ScanYieldsTokens(rest[1..], h', rest[0] == '-');
      }
    }
  }

  function Join(ts: seq<string>): string
  {
    if ts == [] then ""
    else if |ts| == 1 then ts[0]
    else ts[0] + ", " + Join(ts[1..])
  }

  lemma {:induction false} TokenEndOf(t: string, after: string)
    requires IsToken(t) || t == ""
    requires after != "" ==> IsSeparator(after[0])
    ensures TokenEnd(t + after) == |t|
  {
    if t != "" {
      assert (t + after)[1..] == t[1..] + after;
      TokenEndOf(t[1..], after);
    } else {
      assert t + after == after;
    }
  }

  lemma {:induction false} TokensOfJoin(ts: seq<string>)
    requires AreTokens(ts)
    ensures Tokens(Join(ts)) == ts && IsClean(Join(ts))
  {
    if |ts| == 1 {
      TokenEndOf(ts[0], "");
      assert ts[0] + "" == ts[0];
    } else if |ts| > 1 {
      assert AreTokens(ts[1..]);
      TokensOfJoin(ts[1..]);
      TokensOfMore(ts[0], Join(ts[1..]));
      assert Join(ts) == ts[0] + ", " + Join(ts[1..]);
    }
  }

  lemma TokensOfMore(t: string, more: string)
    requires IsToken(t) && IsClean(more)
    ensures Tokens(t + ", " + more) == [t] + Tokens(more) && IsClean(t + ", " + more)
  {
    hide IsTokenByte;
    var after := ", " + more;
    assert t + ", " + more == t + after;
    TokenEndOf(t, after);
    assert (t + after)[..|t|] == t && (t + after)[|t|..] == after;
    assert after[1..] == " " + more;
    assert (" " + more)[1..] == more;
    assert Tokens(after) == Tokens(more);
  }

  lemma {:induction false} CanonicalIsStable(t: string, upper: bool)
    ensures Canonical(Canonical(t, upper), upper) == Canonical(t, upper)
    ensures IsToken(t) ==> IsToken(Canonical(t, upper))
    ensures forall i :: 0 <= i < |t| ==> ToLower(Canonical(t, upper)[i]) == ToLower(t[i])
  {
    if t != "" {
      CanonicalIsStable(t[1..], t[0] == '-');
      assert Canonical(t, upper)[1..] == Canonical(t[1..], t[0] == '-');
      if |t| > 1 && IsToken(t) {
        assert IsToken(t[1..]);
      }
    }
  }

  /** For every string: re-parsing the joined result canonicalises it, keeps
      every token up to the case of its letters, and from then on changes
      nothing. */
  lemma ReparsingSettles(s: string)
    ensures
      var once := Scan(s, "", true);
      var twice := Scan(Join(once), "", true);
      && twice == CanonicalAll(once)
      && Scan(Join(twice), "", true) == twice
      && |twice| == |once|
      && forall i :: 0 <= i < |once| ==>
           |twice[i]| == |once[i]| && forall j :: 0 <= j < |once[i]| ==> ToLower(twice[i][j]) == ToLower(once[i][j])
  {
    var once := Scan(s, "", true);
    ScanYieldsTokens(s, "", true);
    TokensOfJoin(once);
    CleanScansCanonically(Join(once));
    var twice := CanonicalAll(once);
    forall i | 0 <= i < |once|
      ensures IsToken(twice[i]) && Canonical(twice[i]) == twice[i]
      ensures forall j :: 0 <= j < |once[i]| ==> ToLower(twice[i][j]) == ToLower(once[i][j])
    {
      CanonicalIsStable(once[i], true);
    }
    TokensOfJoin(twice);
    CleanScansCanonically(Join(twice));
    assert CanonicalAll(twice) == twice;
  }

  // ---------- Up to case, on every string ----------

  function LowerAll(t: string): (l: string)
    ensures |l| == |t|
  {
    if t == "" then "" else [ToLower(t[0])] + LowerAll(t[1..])
  }

  function LowerEach(ts: seq<string>): seq<string>
  {
    if ts == [] then [] else [LowerAll(ts[0])] + LowerEach(ts[1..])
  }

  lemma {:induction false} LowerAllAppend(t: string, b: char)
    ensures LowerAll(t + [b]) == LowerAll(t) + [ToLower(b)]
  {
    if t != "" {
      LowerAllAppend(t[1..], b);
      assert (t + [b])[1..] == t[1..] + [b];
    }
  }

  lemma {:induction false} LowerCanonical(ts: seq<string>)
    ensures LowerEach(CanonicalAll(ts)) == LowerEach(ts)
  {
    if ts != [] {
      LowerCanonical(ts[1..]);
      LowerOfCanonical(ts[0], true);
    }
  }

  lemma {:induction false} LowerOfCanonical(t: string, upper: bool)
    ensures LowerAll(Canonical(t, upper)) == LowerAll(t)
  {
    if t != "" {
      LowerOfCanonical(t[1..], t[0] == '-');
      assert Canonical(t, upper)[1..] == Canonical(t[1..], t[0] == '-');
    }
  }

  lemma LowerKept(b: char, upper: bool, upper': bool, h: string, h': string)
    requires LowerAll(h) == LowerAll(h') && IsTokenByte(b)
    ensures LowerAll(h + Kept(b, upper)) == LowerAll(h' + Kept(b, upper'))
  {
    LowerAllAppend(h, Kept(b, upper)[0]);
    LowerAllAppend(h', Kept(b, upper')[0]);
  }

  lemma {:induction false} StripScansUpToCase(rest: string, h: string, h': string, upper: bool, upper': bool)
    requires LowerAll(h) == LowerAll(h')
    ensures LowerEach(Scan(rest, h, upper)) == LowerEach(Scan(Strip(rest), h', upper'))
    decreases |rest|
  {
    if rest != "" {
      var b, tail := rest[0], rest[1..];
      if IsStray(b) {
        assert Strip(rest) == Strip(tail) && h + Kept(b, upper) == h;
        StripScansUpToCase(tail, h, h', false, upper');
      } else {
        assert Strip(rest) == [b] + Strip(tail);
        assert Strip(rest)[0] == b && Strip(rest)[1..] == Strip(tail);
        if IsSeparator(b) {
          StripScansUpToCase(tail, "", "", h != "" || upper, h' != "" || upper');
        } else {
          LowerKept(b, upper, upper', h, h');
          StripScansUpToCase(tail, h + Kept(b, upper), h' + Kept(b, upper'), b == '-', b == '-');
        }
      }
    }
  }

  /** On every string, the headers are the non-empty pieces of what is left
      without stray bytes, up to the case of their letters. */
  lemma ScanUpToCase(s: string)
    ensures LowerEach(Scan(s, "", true)) == LowerEach(Tokens(Strip(s)))
  {
    StripScansUpToCase(s, "", "", true, true);
    CleanScansCanonically(Strip(s));
    LowerCanonical(Tokens(Strip(s)));
  }
}
