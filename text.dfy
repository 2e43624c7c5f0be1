/** String helpers with the meaning the JavaScript built-ins they stand for have:
    `trim`, `toLowerCase`, `includes`, `startsWith`, `split`, `toString` of a
    non-negative integer and `padStart(2, '0')`. */
module Text {

  /** The code points ECMAScript counts as WhiteSpace or LineTerminator,
      i.e. exactly what `String.prototype.trim` strips from both ends. */
  const SpaceChars: set<char> := {
    '\t', '\n', '\U{000B}', '\U{000C}', '\r', ' ', '\U{00A0}', '\U{1680}',
    '\U{2000}', '\U{2001}', '\U{2002}', '\U{2003}', '\U{2004}', '\U{2005}',
    '\U{2006}', '\U{2007}', '\U{2008}', '\U{2009}', '\U{200A}',
    '\U{2028}', '\U{2029}', '\U{202F}', '\U{205F}', '\U{3000}', '\U{FEFF}'
  }

  predicate IsSpace(c: char) {
    c in SpaceChars
  }

  /** Every character is white space (this includes the empty string). */
  predicate IsBlank(s: string) {
    forall i :: 0 <= i < |s| ==> IsSpace(s[i])
  }

  /** Leading white space removed: `r` is the longest suffix of `s` not starting with a space. */
  function TrimStart(s: string): (r: string)
    ensures |r| <= |s| && r == s[|s| - |r|..]
    ensures forall k :: 0 <= k < |s| - |r| ==> IsSpace(s[k])
    ensures r == [] || !IsSpace(r[0])
  {
    if s != [] && IsSpace(s[0]) then
      var r := TrimStart(s[1..]);
      assert s[1..][|s| - 1 - |r|..] == s[|s| - |r|..];
      assert forall k :: 1 <= k < |s| - |r| ==> s[k] == s[1..][k - 1];
      r
    else s
  }

  /** Trailing white space removed: `r` is the longest prefix of `s` not ending with a space. */
  function TrimEnd(s: string): (r: string)
    ensures |r| <= |s| && r == s[..|r|]
    ensures forall k :: |r| <= k < |s| ==> IsSpace(s[k])
    ensures r == [] || !IsSpace(r[|r| - 1])
  {
    if s != [] && IsSpace(s[|s| - 1]) then
      var r := TrimEnd(s[..|s| - 1]);
      assert s[..|s| - 1][..|r|] == s[..|r|];
      assert forall k :: |r| <= k < |s| - 1 ==> s[k] == s[..|s| - 1][k];
      r
    else s
  }

  /** `s.trim()`: `s` with its leading and trailing white space removed. The result
      is empty exactly when `s` is blank, it occurs in `s` with only white space before
      and after it, and when non-empty it starts and ends with a non-space character;
      `TrimUnique` shows these clauses admit no other result. */
  function Trim(s: string): (r: string)
    ensures r == [] <==> IsBlank(s)
    ensures Contains(s, r)
    ensures exists i :: OccursAt(s, r, i) && IsBlank(s[..i]) && IsBlank(s[i + |r|..])
    ensures r != [] ==> !IsSpace(r[0]) && !IsSpace(r[|r| - 1])
  {
    var t := TrimStart(s);
    InfixBlankAround(s, t, TrimEnd(t));
    EmptyTrimIsBlank(s);
    BlankTrimsToEmpty(s);
    TrimEnd(t)
  }

  /** A prefix `r` of a suffix `t` of `s`, with only white space before `t` and after `r`
      within `t`, occurs in `s` with only white space around it. */
  lemma InfixBlankAround(s: string, t: string, r: string)
    requires |t| <= |s| && t == s[|s| - |t|..] && forall k :: 0 <= k < |s| - |t| ==> IsSpace(s[k])
    requires |r| <= |t| && r == t[..|r|] && forall k :: |r| <= k < |t| ==> IsSpace(t[k])
    ensures var i := |s| - |t|; OccursAt(s, r, i) && IsBlank(s[..i]) && IsBlank(s[i + |r|..])
  {
    InfixOfSuffix(s, t, r);
    BlankBefore(s, |s| - |t|);
    BlankAfter(s, t, r, |s| - |t|);
  }

  lemma BlankBefore(s: string, i: int)
    requires 0 <= i <= |s| && forall k :: 0 <= k < i ==> IsSpace(s[k])
    ensures IsBlank(s[..i])
  {
    forall k | 0 <= k < i ensures IsSpace(s[..i][k]) {
      assert s[..i][k] == s[k];
    }
  }

  lemma BlankAfter(s: string, t: string, r: string, i: int)
    requires 0 <= i && i + |t| == |s| && t == s[i..] && |r| <= |t|
    requires forall k :: |r| <= k < |t| ==> IsSpace(t[k])
    ensures IsBlank(s[i + |r|..])
  {
    var u := s[i + |r|..];
    forall k | 0 <= k < |u| ensures IsSpace(u[k]) {
      assert u[k] == t[|r| + k];
    }
  }

  /** Any infix of `s` with only white space around it and non-space ends is the trimmed text. */
  lemma TrimUnique(s: string, r: string, i: int)
    requires OccursAt(s, r, i) && IsBlank(s[..i]) && IsBlank(s[i + |r|..])
    requires r != [] ==> !IsSpace(r[0]) && !IsSpace(r[|r| - 1])
    ensures r == Trim(s)
  {
    var t := Trim(s);
    var j :| OccursAt(s, t, j) && IsBlank(s[..j]) && IsBlank(s[j + |t|..]);
    if r == [] {
      BlankAround(s, i);
    } else {
      NonSpaceNotBlank(s, i);
      SameInfix(s, r, i, t, j);
    }
  }

  /** Two non-empty infixes with non-space ends and only white space around them coincide. */
  lemma SameInfix(s: string, r: string, i: int, t: string, j: int)
    requires r != [] && t != []
    requires OccursAt(s, r, i) && IsBlank(s[..i]) && IsBlank(s[i + |r|..])
    requires OccursAt(s, t, j) && IsBlank(s[..j]) && IsBlank(s[j + |t|..])
    requires !IsSpace(r[0]) && !IsSpace(r[|r| - 1]) && !IsSpace(t[0]) && !IsSpace(t[|t| - 1])
    ensures r == t
  {
    assert s[i] == r[0] && s[i + |r| - 1] == r[|r| - 1];
    assert s[j] == t[0] && s[j + |t| - 1] == t[|t| - 1];
    FirstNonSpace(s, i, j);
    LastNonSpace(s, i + |r|, j + |t|);
  }

  lemma NonSpaceNotBlank(s: string, k: int)
    requires 0 <= k < |s| && !IsSpace(s[k])
    ensures !IsBlank(s)
  {
  }

  /** A prefix of a suffix is an infix. */
  lemma InfixOfSuffix(s: string, t: string, r: string)
    requires |t| <= |s| && t == s[|s| - |t|..]
    requires |r| <= |t| && r == t[..|r|]
    ensures OccursAt(s, r, |s| - |t|)
  {
  }

  lemma BlankAround(s: string, i: int)
    requires 0 <= i <= |s| && IsBlank(s[..i]) && IsBlank(s[i..])
    ensures IsBlank(s)
  {
    forall k | 0 <= k < |s| ensures IsSpace(s[k]) {
      if k < i { assert s[k] == s[..i][k]; } else { assert s[k] == s[i..][k - i]; }
    }
  }

  /** Only one position can hold a non-space with nothing but white space before it. */
  lemma FirstNonSpace(s: string, i: int, j: int)
    requires 0 <= i < |s| && 0 <= j < |s| && IsBlank(s[..i]) && IsBlank(s[..j])
    requires !IsSpace(s[i]) && !IsSpace(s[j])
    ensures i == j
  {
  }

  /** Only one position can end in a non-space with nothing but white space after it. */
  lemma LastNonSpace(s: string, e1: int, e2: int)
    requires 0 < e1 <= |s| && 0 < e2 <= |s| && IsBlank(s[e1..]) && IsBlank(s[e2..])
    requires !IsSpace(s[e1 - 1]) && !IsSpace(s[e2 - 1])
    ensures e1 == e2
  {
  }

  lemma {:induction false} EmptyTrimIsBlank(s: string)
    ensures TrimEnd(TrimStart(s)) == [] ==> IsBlank(s)
  {
    if s != [] && IsSpace(s[0]) {
      EmptyTrimIsBlank(s[1..]);
    }
  }

  lemma {:induction false} BlankTrimsToEmpty(s: string)
    ensures IsBlank(s) ==> TrimStart(s) == []
  {
    if s != [] {
      BlankTrimsToEmpty(s[1..]);
    }
  }

  /** `s.startsWith(p)`. */
  predicate StartsWith(s: string, p: string) {
    |p| <= |s| && s[..|p|] == p
  }

  /** `s.endsWith(suf)`. */
  predicate EndsWith(s: string, suf: string) {
    |suf| <= |s| && s[|s| - |suf|..] == suf
  }

  /** `s.includes(sub)`: `sub` occurs in `s` at some position. */
  predicate Contains(s: string, sub: string) {
    exists i :: 0 <= i <= |s| - |sub| && OccursAt(s, sub, i)
  }

  /** `sub` occurs in `s` starting at index `i`. */
  predicate OccursAt(s: string, sub: string, i: int) {
    0 <= i <= |s| - |sub| && s[i..i + |sub|] == sub
  }

  /** The empty string is contained in every string, as `includes("")` is true. */
  lemma ContainsEmpty(s: string)
    ensures Contains(s, "")
  {
    assert OccursAt(s, "", 0);
  }

  /** `toLowerCase` on the Basic Latin and Latin-1 letters. */
  function LowerChar(c: char): (r: char)
    ensures 'A' <= c <= 'Z' ==> 'a' <= r <= 'z' && r as int == c as int + 32
    ensures !('A' <= c <= 'Z') && !('\U{00C0}' <= c <= '\U{00DE}') ==> r == c
  {
    if 'A' <= c <= 'Z' || ('\U{00C0}' <= c <= '\U{00DE}' && c != '\U{00D7}') then
      (c as int + 32) as char
    else
      c
  }

  /** `s.toLowerCase()`, character by character. */
  function ToLower(s: string): (r: string)
    ensures |r| == |s|
    ensures forall i :: 0 <= i < |s| ==> r[i] == LowerChar(s[i])
  {
    seq(|s|, i requires 0 <= i < |s| => LowerChar(s[i]))
  }

  /** Lower-casing keeps an occurrence: what occurs in `s` occurs, lowered, in `s` lowered. */
  lemma ContainsLower(s: string, t: string)
    ensures Contains(s, t) ==> Contains(ToLower(s), ToLower(t))
  {
    if Contains(s, t) {
      var i :| 0 <= i <= |s| - |t| && OccursAt(s, t, i);
      assert ToLower(s)[i..i + |t|] == ToLower(t) by {
        forall k | 0 <= k < |t| ensures ToLower(s)[i..i + |t|][k] == ToLower(t)[k] {
          assert s[i + k] == t[k];
        }
      }
      assert OccursAt(ToLower(s), ToLower(t), i);
    }
  }

  /** Lowering twice is lowering once. */
  lemma LowerCharIdempotent(c: char)
    ensures LowerChar(LowerChar(c)) == LowerChar(c)
  {
  }

  lemma ToLowerIdempotent(s: string)
    ensures ToLower(ToLower(s)) == ToLower(s)
  {
    forall i | 0 <= i < |s| ensures ToLower(ToLower(s))[i] == ToLower(s)[i] {
      LowerCharIdempotent(s[i]);
    }
  }

  predicate IsDigit(c: char) {
    '0' <= c <= '9'
  }

  predicate AllDigits(s: string) {
    forall i :: 0 <= i < |s| ==> IsDigit(s[i])
  }

  function DigitChar(d: nat): (c: char)
    requires d < 10
    ensures IsDigit(c) && c as int - '0' as int == d
  {
    ('0' as int + d) as char
  }

  /** The value of a string of decimal digits (most significant first). */
  function DigitsValue(s: string): nat
    requires AllDigits(s)
  {
    if s == [] then 0 else DigitsValue(s[..|s| - 1]) * 10 + (s[|s| - 1] as int - '0' as int)
  }

  /** `n.toString()` for a non-negative integer: decimal digits without leading zeros. */
  function NatToString(n: nat): (r: string)
    ensures |r| >= 1 && AllDigits(r)
    ensures |r| > 1 ==> r[0] != '0'
    ensures n < 10 <==> |r| == 1
  {
    if n < 10 then [DigitChar(n)] else NatToString(n / 10) + [DigitChar(n % 10)]
  }

  /** Reading the decimal rendering back gives the number. */
  lemma {:induction false} NatToStringValue(n: nat)
    ensures DigitsValue(NatToString(n)) == n
  {
    var r := NatToString(n);
    if n >= 10 {
      NatToStringValue(n / 10);
      assert r[..|r| - 1] == NatToString(n / 10);
    } else {
      assert r[..0] == [];
    }
  }

  /** Distinct numbers have distinct decimal renderings. */
  lemma NatToStringInjective(a: nat, b: nat)
    requires NatToString(a) == NatToString(b)
    ensures a == b
  {
    NatToStringValue(a);
    NatToStringValue(b);
  }

  /** `s.padStart(2, '0')`. */
  function PadStart2(s: string): (r: string)
    ensures |r| == if |s| < 2 then 2 else |s|
    ensures r[|r| - |s|..] == s
    ensures forall k :: 0 <= k < |r| - |s| ==> r[k] == '0'
  {
    if |s| == 0 then "00" else if |s| == 1 then ['0'] + s else s
  }

  /** `n.toString().padStart(2, '0')` is exactly two digits and reads back as `n`, for `n < 100`. */
  lemma TwoDigitsValue(n: nat)
    requires n < 100
    ensures |PadStart2(NatToString(n))| == 2 && AllDigits(PadStart2(NatToString(n)))
    ensures DigitsValue(PadStart2(NatToString(n))) == n
  {
    var d := NatToString(n);
    var p := PadStart2(d);
    NatToStringValue(n);
    if n < 10 {
      assert p == ['0', d[0]];
      assert p[..1] == ['0'];
      assert d[..0] == [];
    } else {
      assert n / 10 < 10;
      assert p == d;
    }
  }

  /** The number of occurrences of `c` in `s`. */
  function Count(s: string, c: char): nat {
    if s == [] then 0 else Count(s[..|s| - 1], c) + (if s[|s| - 1] == c then 1 else 0)
  }

  /** No character occurs more often than the string is long. */
  lemma {:induction false} CountAtMostLength(s: string, c: char)
    ensures Count(s, c) <= |s|
  {
    if s != [] {
      CountAtMostLength(s[..|s| - 1], c);
    }
  }

  /** Occurrences in a concatenation add up. */
  lemma {:induction false} CountConcat(a: string, b: string, c: char)
    ensures Count(a + b, c) == Count(a, c) + Count(b, c)
  {
    if b == [] {
      assert a + b == a;
    } else {
      CountConcat(a, b[..|b| - 1], c);
      assert (a + b)[..|a + b| - 1] == a + b[..|b| - 1];
    }
  }

  /** A string of digits holds no other character. */
  lemma {:induction false} CountInDigits(s: string, c: char)
    requires AllDigits(s) && !IsDigit(c)
    ensures Count(s, c) == 0
  {
    if s != [] {
      CountInDigits(s[..|s| - 1], c);
    }
  }

  /** `s.split(sep)` for a one-character separator: the maximal pieces between occurrences of `sep`. */
  function Split(s: string, sep: char): (r: seq<string>)
    ensures |r| >= 1
  {
    if s == [] then [""]
    else
      var init := Split(s[..|s| - 1], sep);
      if s[|s| - 1] == sep then init + [""]
      else init[..|init| - 1] + [init[|init| - 1] + [s[|s| - 1]]]
  }

  /** No piece of a split contains the separator. */
  lemma {:induction false} SplitSepFree(s: string, sep: char)
    ensures forall i :: 0 <= i < |Split(s, sep)| ==> sep !in Split(s, sep)[i]
  {
    if s != [] {
      var s' := s[..|s| - 1];
      var c := s[|s| - 1];
      SplitSepFree(s', sep);
      var init := Split(s', sep);
      if c != sep {
        var u := init[|init| - 1];
        assert sep !in u;
        assert sep !in u + [c];
      }
    }
  }

  /** Joining pieces with `sep` between them (`Array.prototype.join`). */
  function Join(pieces: seq<string>, sep: char): string
    requires |pieces| >= 1
  {
    if |pieces| == 1 then pieces[0] else Join(pieces[..|pieces| - 1], sep) + [sep] + pieces[|pieces| - 1]
  }

  /** `split` yields one more piece than there are separators. */
  lemma {:induction false} SplitLength(s: string, sep: char)
    ensures |Split(s, sep)| == Count(s, sep) + 1
  {
    if s != [] {
      SplitLength(s[..|s| - 1], sep);
    }
  }

  /** Extending the last piece by one character extends the joined string by it. */
  lemma JoinExtendLast(pieces: seq<string>, sep: char, c: char)
    requires |pieces| >= 1
    ensures var n := |pieces|;
      Join(pieces[..n - 1] + [pieces[n - 1] + [c]], sep) == Join(pieces, sep) + [c]
  {
    var n := |pieces|;
    var q := pieces[..n - 1] + [pieces[n - 1] + [c]];
    if n > 1 {
      assert q[..n - 1] == pieces[..n - 1];
    }
  }

  /** Adding an empty last piece appends one separator. */
  lemma JoinAppendEmpty(pieces: seq<string>, sep: char)
    requires |pieces| >= 1
    ensures Join(pieces + [""], sep) == Join(pieces, sep) + [sep]
  {
    assert (pieces + [""])[..|pieces|] == pieces;
  }

  /** Joining the pieces of a split with the same separator gives back the string. */
  lemma {:induction false} SplitJoin(s: string, sep: char)
    ensures Join(Split(s, sep), sep) == s
  {
    if s != [] {
      var s' := s[..|s| - 1];
      var c := s[|s| - 1];
      var init := Split(s', sep);
      SplitJoin(s', sep);
      assert s == s' + [c];
      if c == sep {
        JoinAppendEmpty(init, sep);
      } else {
        JoinExtendLast(init, sep, c);
      }
    }
  }

  /** The last piece of a split is what follows the last separator. */
  lemma {:induction false} SplitLastAfter(a: string, sep: char, b: string)
    requires sep !in b
    ensures var r := Split(a + [sep] + b, sep); r[|r| - 1] == b
  {
    if b == [] {
      assert a + [sep] + b == a + [sep];
      assert (a + [sep])[..|a|] == a;
    } else {
      var b' := b[..|b| - 1];
      SplitLastAfter(a, sep, b');
      assert (a + [sep] + b)[..|a + [sep] + b| - 1] == a + [sep] + b';
    }
  }

  /** The last piece of a split is a suffix of the string, and unless it is the whole
      string it follows a separator. */
  lemma {:induction false} SplitLastSuffix(s: string, sep: char)
    ensures var r := Split(s, sep); var t := r[|r| - 1];
      |t| <= |s| && t == s[|s| - |t|..] && (|t| < |s| ==> s[|s| - |t| - 1] == sep)
  {
    if s != [] {
      var p := s[..|s| - 1];
      var c := s[|s| - 1];
      assert s == p + [c];
      SplitLastSuffix(p, sep);
      var init := Split(p, sep);
      var r := Split(s, sep);
      if c == sep {
        assert r == init + [""];
      } else {
        var u := init[|init| - 1];
        assert r == init[..|init| - 1] + [u + [c]];
        SuffixExtend(p, c, u, sep);
      }
    }
  }

  /** A suffix `u` of `p` after a separator, extended by `c`, is a suffix of `p + [c]` after it. */
  lemma SuffixExtend(p: string, c: char, u: string, sep: char)
    requires |u| <= |p| && u == p[|p| - |u|..] && (|u| < |p| ==> p[|p| - |u| - 1] == sep)
    ensures |u| + 1 <= |p + [c]| && u + [c] == (p + [c])[|p| - |u|..]
    ensures |u| < |p| ==> (p + [c])[|p| - |u| - 1] == sep
  {
    var q := p + [c];
    assert q[|p| - |u|..] == p[|p| - |u|..] + [c];
    if |u| < |p| {
      assert q[|p| - |u| - 1] == p[|p| - |u| - 1];
    }
  }

  /** Without a separator, the split is the whole string. */
  lemma {:induction false} SplitNoSep(s: string, sep: char)
    requires sep !in s
    ensures Split(s, sep) == [s]
  {
    if s != [] {
      var init := s[..|s| - 1];
      assert sep !in init by {
        forall i | 0 <= i < |init| ensures init[i] != sep {
          assert init[i] == s[i];
        }
      }
      SplitNoSep(s[..|s| - 1], sep);
      assert s[..|s| - 1] + [s[|s| - 1]] == s;
    }
  }
}
