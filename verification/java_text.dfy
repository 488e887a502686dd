/** The parts of `java.lang.String`, `java.lang.Character` and
    `java.util.stream.Collectors.joining` the generator relies on.
    Case mapping is restricted to ASCII letters; every other character is its
    own upper and lower case. */
module JavaText {

  // ---------------------------------------------------------------------------
  // Characters

  predicate IsUpper(c: char) {
    'A' <= c <= 'Z'
  }

  predicate IsLower(c: char) {
    'a' <= c <= 'z'
  }

  /** `Character.toLowerCase` on ASCII. */
  function ToLower(c: char): (r: char)
    ensures !IsUpper(r)
    ensures IsUpper(c) ==> IsLower(r) && r as int == c as int + 32
    ensures !IsUpper(c) ==> r == c
  {
    if IsUpper(c) then (c as int + 32) as char else c
  }

  /** `Character.toUpperCase` on ASCII. */
  function ToUpper(c: char): (r: char)
    ensures !IsLower(r)
    ensures IsLower(c) ==> IsUpper(r) && r as int == c as int - 32
    ensures !IsLower(c) ==> r == c
  {
    if IsLower(c) then (c as int - 32) as char else c
  }

  /** Upper-casing first never changes what lower-casing gives. */
  lemma LowerOfUpper(c: char)
    ensures ToLower(ToUpper(c)) == ToLower(c)
  {
  }

  /** `Character.isWhitespace`: the Unicode space, line and paragraph
      separators other than the no-break spaces, and the ASCII controls
      HT, LF, VT, FF, CR, FS, GS, RS and US. */
  predicate IsWhitespace(c: char) {
    || c == ' '
    || '\t' <= c <= '\r'
    || '\U{001C}' <= c <= '\U{001F}'
    || c == '\U{1680}'
    || '\U{2000}' <= c <= '\U{2006}'
    || '\U{2008}' <= c <= '\U{200A}'
    || c == '\U{2028}'
    || c == '\U{2029}'
    || c == '\U{205F}'
    || c == '\U{3000}'
  }

  // ---------------------------------------------------------------------------
  // Strings

  /** `String.isBlank`: empty or whitespace only. */
  predicate IsBlank(s: string) {
    forall i :: 0 <= i < |s| ==> IsWhitespace(s[i])
  }

  /** `String.toLowerCase` on ASCII. */
  function LowerAll(s: string): (r: string)
    ensures |r| == |s|
    ensures forall i :: 0 <= i < |s| ==> r[i] == ToLower(s[i])
  {
    seq(|s|, i requires 0 <= i < |s| => ToLower(s[i]))
  }

  lemma LowerAllAppend(a: string, b: string)
    ensures LowerAll(a + b) == LowerAll(a) + LowerAll(b)
  {
  }

  predicate StartsWith(s: string, p: string) {
    |p| <= |s| && s[..|p|] == p
  }

  predicate EndsWith(s: string, p: string) {
    |p| <= |s| && s[|s| - |p|..] == p
  }

  lemma PrefixStartsWith(p: string, s: string)
    ensures StartsWith(p + s, p)
  {
    assert (p + s)[..|p|] == p;
  }

  lemma SuffixEndsWith(p: string, s: string)
    ensures EndsWith(p + s, s)
  {
    assert (p + s)[|p|..] == s;
  }

  /** A text of three pieces starts with its first piece (and the first two)
      and ends with its last piece (and the last two). */
  lemma Framed(a: string, b: string, c: string)
    ensures StartsWith(a + b + c, a) && StartsWith(a + b + c, a + b)
    ensures EndsWith(a + b + c, c) && EndsWith(a + b + c, b + c)
  {
    var t := a + b + c;
    assert t[..|a|] == a;
    assert t[..|a + b|] == a + b;
    assert t[|t| - |c|..] == c;
    assert t[|t| - |b + c|..] == b + c;
  }

  /** The middle piece is what lies between the other two. */
  lemma MiddlePiece(a: string, b: string, c: string)
    ensures |a| <= |a + b + c| - |c|
    ensures (a + b + c)[|a|..|a + b + c| - |c|] == b
  {
  }

  /** `s` occurs somewhere in `t`. */
  predicate Contains(t: string, s: string) {
    exists i :: 0 <= i <= |t| && StartsWith(t[i..], s)
  }

  /** `s` occurs in `a + s + b`. */
  lemma ContainsMiddle(a: string, s: string, b: string)
    ensures Contains(a + s + b, s)
  {
    assert StartsWith((a + s + b)[|a|..], s) by {
      assert (a + s + b)[|a|..] == s + b;
    }
  }

  /** `String.equalsIgnoreCase`: equal lengths and, position by position,
      the characters are equal, equal after upper-casing, or equal after
      upper- then lower-casing (the test `regionMatches(true, ...)` makes). */
  function EqualsIgnoreCase(a: string, b: string): (r: bool)
    ensures r <==> LowerAll(a) == LowerAll(b)
  {
    if |a| != |b| then
      assert |LowerAll(a)| != |LowerAll(b)|;
      false
    else
      RegionMatches(a, b)
  }

  function RegionMatches(a: string, b: string): (r: bool)
    requires |a| == |b|
    ensures r <==> forall i :: 0 <= i < |a| ==> ToLower(a[i]) == ToLower(b[i])
  {
    if |a| == 0 then true
    else
      var c1, c2 := a[0], b[0];
      var same := c1 == c2 || ToUpper(c1) == ToUpper(c2)
                  || ToLower(ToUpper(c1)) == ToLower(ToUpper(c2));
      LowerOfUpper(c1);
      LowerOfUpper(c2);
      same && RegionMatches(a[1..], b[1..])
  }

  /** Removes every character `c` from `s`. */
  function Remove(s: string, c: char): (r: string)
    ensures c !in r
    ensures |r| <= |s|
  {
    if |s| == 0 then []
    else if s[0] == c then Remove(s[1..], c)
    else [s[0]] + Remove(s[1..], c)
  }

  /** `String.replace("[]", "")`: a left-to-right scan that drops every
      non-overlapping occurrence of `[]`. */
  function RemoveBrackets(s: string): (r: string)
    ensures |r| <= |s|
  {
    if |s| == 0 then []
    else if |s| >= 2 && s[0] == '[' && s[1] == ']' then RemoveBrackets(s[2..])
    else [s[0]] + RemoveBrackets(s[1..])
  }

  /** A trailing `[]` never changes what the scan leaves behind: an array
      type normalizes like its component type. */
  lemma {:induction false} RemoveBracketsSuffix(s: string)
    ensures RemoveBrackets(s + "[]") == RemoveBrackets(s)
    decreases |s|
  {
    if |s| == 0 {
    } else if |s| >= 2 && s[0] == '[' && s[1] == ']' {
      assert (s + "[]")[2..] == s[2..] + "[]";
      RemoveBracketsSuffix(s[2..]);
    } else if |s| == 1 {
      assert s + "[]" == [s[0]] + "[]";
      assert (s + "[]")[1..] == "[]";
      if s[0] == '[' {
        assert RemoveBrackets(s + "[]") == [s[0]] + RemoveBrackets("[]");
      }
    } else {
      assert (s + "[]")[1..] == s[1..] + "[]";
      RemoveBracketsSuffix(s[1..]);
    }
  }

  /** A name without `[` is left alone by the scan. */
  lemma {:induction false} RemoveBracketsFree(s: string)
    requires '[' !in s
    ensures RemoveBrackets(s) == s
    decreases |s|
  {
    if |s| > 0 {
      assert s[0] in s;
      assert forall k :: 0 <= k < |s[1..]| ==> s[1..][k] == s[k + 1];
      RemoveBracketsFree(s[1..]);
    }
  }

  // ---------------------------------------------------------------------------
  // Joining and splitting

  /** `Collectors.joining(sep)`: the parts with `sep` between neighbours. */
  function Join(parts: seq<string>, sep: string): (r: string)
  {
    if |parts| == 0 then []
    else if |parts| == 1 then parts[0]
    else parts[0] + sep + Join(parts[1..], sep)
  }

  /** Concatenation of the parts, `Collectors.joining()`. */
  function Concat(parts: seq<string>): string
  {
    if |parts| == 0 then [] else parts[0] + Concat(parts[1..])
  }

  /** Concatenation distributes over appending lists of parts. */
  lemma {:induction false} ConcatAppend(a: seq<string>, b: seq<string>)
    ensures Concat(a + b) == Concat(a) + Concat(b)
    decreases |a|
  {
    if |a| == 0 {
      assert a + b == b;
    } else {
      assert (a + b)[1..] == a[1..] + b;
      ConcatAppend(a[1..], b);
    }
  }

  /** Three consecutive parts occur, back to back, in the concatenation. */
  lemma ContainsAdjacent(ps: seq<string>, k: nat)
    requires k + 3 <= |ps|
    ensures Contains(Concat(ps), ps[k] + ps[k + 1] + ps[k + 2])
  {
    ConcatAround(ps, k);
    WindowConcat(ps, k);
    ContainsMiddle(Concat(ps[..k]), Concat(ps[k..][..3]), Concat(ps[k..][3..]));
  }

  /** The concatenation cut around a window of three parts. */
  lemma ConcatAround(ps: seq<string>, k: nat)
    requires k + 3 <= |ps|
    ensures Concat(ps) == Concat(ps[..k]) + Concat(ps[k..][..3]) + Concat(ps[k..][3..])
  {
    var pre, rest := ps[..k], ps[k..];
    assert ps == pre + rest;
    assert rest == rest[..3] + rest[3..];
    ConcatAppend(pre, rest);
    ConcatAppend(rest[..3], rest[3..]);
  }

  lemma WindowConcat(ps: seq<string>, k: nat)
    requires k + 3 <= |ps|
    ensures Concat(ps[k..][..3]) == ps[k] + ps[k + 1] + ps[k + 2]
  {
    Concat3(ps[k..][..3]);
  }

  /** What occurs in a prefix of a text occurs in the text. */
  lemma ContainsInPrefix(s: string, n: nat, x: string)
    requires n <= |s| && Contains(s[..n], x)
    ensures Contains(s, x)
  {
    assert s == s[..n] + s[n..];
    ContainsExtend(s[..n], x, s[n..]);
  }

  /** What occurs in a text occurs after anything put before it. */
  lemma ContainsPrepend(a: string, s: string, x: string)
    requires Contains(s, x)
    ensures Contains(a + s, x)
  {
    var i :| 0 <= i <= |s| && StartsWith(s[i..], x);
    assert (a + s)[|a| + i..] == s[i..];
  }

  /** Occurrence is transitive. */
  lemma ContainsTrans(t: string, s: string, x: string)
    requires Contains(t, s) && Contains(s, x)
    ensures Contains(t, x)
  {
    var i :| 0 <= i <= |t| && StartsWith(t[i..], s);
    var k :| 0 <= k <= |s| && StartsWith(s[k..], x);
    assert |x| <= |s| - k;
    assert t[i..][..|s|] == s;
    forall j | 0 <= j < |x|
      ensures t[i + k + j] == x[j]
    {
      assert s[k..][j] == x[j];
      assert t[i..][k + j] == s[k + j];
    }
    assert t[i + k..][..|x|] == x;
  }

  /** Two neighbouring parts occur in the joined text with the separator
      between them. */
  lemma {:induction false} JoinAdjacent(ps: seq<string>, sep: string, i: nat)
    requires i + 1 < |ps|
    ensures Contains(Join(ps, sep), ps[i] + sep + ps[i + 1])
    decreases |ps|
  {
    if i == 0 {
      var rest := Join(ps[1..], sep);
      JoinStartsWith(ps[1..], sep);
      var tail := rest[|ps[1]|..];
      assert rest == ps[1] + tail;
      assert Join(ps, sep) == [] + (ps[0] + sep + ps[1]) + tail;
      ContainsMiddle([], ps[0] + sep + ps[1], tail);
    } else {
      JoinAdjacent(ps[1..], sep, i - 1);
      ContainsPrepend(ps[0] + sep, Join(ps[1..], sep), ps[i] + sep + ps[i + 1]);
    }
  }

  /** The joined text starts with the first part. */
  lemma JoinStartsWith(ps: seq<string>, sep: string)
    requires |ps| >= 1
    ensures StartsWith(Join(ps, sep), ps[0])
  {
    if |ps| > 1 {
      PrefixStartsWith(ps[0], sep + Join(ps[1..], sep));
      assert Join(ps, sep) == ps[0] + (sep + Join(ps[1..], sep));
    }
  }

  /** Each part occurs in the joined text. */
  lemma {:induction false} JoinContains(ps: seq<string>, sep: string, i: nat)
    requires i < |ps|
    ensures Contains(Join(ps, sep), ps[i])
    decreases |ps|
  {
    if |ps| == 1 {
      ContainsMiddle([], ps[0], []);
      assert [] + ps[0] + [] == ps[0];
    } else if i == 0 {
      ContainsMiddle([], ps[0], sep + Join(ps[1..], sep));
      assert [] + ps[0] + (sep + Join(ps[1..], sep)) == Join(ps, sep);
    } else {
      JoinContains(ps[1..], sep, i - 1);
      ContainsPrepend(ps[0] + sep, Join(ps[1..], sep), ps[i]);
    }
  }

  lemma Concat3(w: seq<string>)
    requires |w| == 3
    ensures Concat(w) == w[0] + w[1] + w[2]
  {
    assert Concat(w[2..]) == w[2] by {
      assert w[2..][1..] == [];
    }
    assert Concat(w[1..]) == w[1] + Concat(w[2..]) by {
      assert w[1..][1..] == w[2..];
    }
  }

  /** What occurs in a text occurs in any extension of it. */
  lemma ContainsExtend(s: string, x: string, y: string)
    requires Contains(s, x)
    ensures Contains(s + y, x)
  {
    var i :| 0 <= i <= |s| && StartsWith(s[i..], x);
    assert (s + y)[i..][..|x|] == s[i..][..|x|];
  }

  /** Every piece of `s` between occurrences of `c`, empty ones included:
      there is always one more piece than there are separators. */
  function Split(s: string, c: char): (r: seq<string>)
    ensures |r| >= 1
    ensures forall i :: 0 <= i < |r| ==> c !in r[i]
  {
    if |s| == 0 then [[]]
    else
      var rest := Split(s[1..], c);
      if s[0] == c then [[]] + rest
      else [[s[0]] + rest[0]] + rest[1..]
  }

  /** Splitting a joined sequence of separator-free parts gives the parts back. */
  lemma {:induction false} SplitJoin(parts: seq<string>, c: char)
    requires |parts| >= 1
    requires forall i :: 0 <= i < |parts| ==> c !in parts[i]
    ensures Split(Join(parts, [c]), c) == parts
    decreases |parts|
  {
    if |parts| == 1 {
      SplitFree(parts[0], c);
    } else {
      SplitJoin(parts[1..], c);
      SplitPrefix(parts[0], c, Join(parts[1..], [c]));
      assert Join(parts, [c]) == parts[0] + [c] + Join(parts[1..], [c]);
      assert [parts[0]] + parts[1..] == parts;
    }
  }

  /** A string without separator is a single piece. */
  lemma {:induction false} SplitFree(s: string, c: char)
    requires c !in s
    ensures Split(s, c) == [s]
    decreases |s|
  {
    if |s| > 0 {
      SplitFree(s[1..], c);
      assert [s[0]] + s[1..] == s;
    }
  }

  /** The first piece ends at the first separator. */
  lemma {:induction false} SplitPrefix(a: string, c: char, b: string)
    requires c !in a
    ensures Split(a + [c] + b, c) == [a] + Split(b, c)
    decreases |a|
  {
    if |a| == 0 {
      assert a + [c] + b == [c] + b;
      assert ([c] + b)[1..] == b;
    } else {
      assert (a + [c] + b)[1..] == a[1..] + [c] + b;
      SplitPrefix(a[1..], c, b);
      assert [a[0]] + a[1..] == a;
    }
  }

  /** Concatenating the pieces of a split gives back the string with the
      separators removed. */
  lemma {:induction false} ConcatSplit(s: string, c: char)
    ensures Concat(Split(s, c)) == Remove(s, c)
    decreases |s|
  {
    if |s| > 0 {
      ConcatSplit(s[1..], c);
      var rest := Split(s[1..], c);
      if s[0] != c {
        assert Concat(rest) == rest[0] + Concat(rest[1..]);
        assert Concat(Split(s, c)) == [s[0]] + rest[0] + Concat(rest[1..]);
      }
    }
  }

  // ---------------------------------------------------------------------------
  // Decimal numbers

  function DigitChar(d: nat): (r: char)
    requires d < 10
    ensures '0' <= r <= '9'
  {
    ('0' as int + d) as char
  }

  /** `String.valueOf` of a non-negative `int`: the decimal digits, most
      significant first, with no leading zero. */
  function DecimalText(n: nat): (r: string)
    ensures |r| >= 1
    ensures AllDigits(r)
    ensures n > 0 ==> r[0] != '0'
    decreases n
  {
    if n < 10 then [DigitChar(n)]
    else DecimalText(n / 10) + [DigitChar(n % 10)]
  }

  predicate AllDigits(s: string) {
    forall i :: 0 <= i < |s| ==> '0' <= s[i] <= '9'
  }

  /** Reads decimal digits back into a number. */
  function ParseDecimal(s: string): nat
    requires AllDigits(s)
  {
    if |s| == 0 then 0
    else ParseDecimal(s[..|s| - 1]) * 10 + (s[|s| - 1] as int - '0' as int)
  }

  /** The decimal text of a number reads back as that number. */
  lemma {:induction false} DecimalRoundTrip(n: nat)
    ensures ParseDecimal(DecimalText(n)) == n
    decreases n
  {
    if n >= 10 {
      DecimalRoundTrip(n / 10);
      var t := DecimalText(n);
      assert t[..|t| - 1] == DecimalText(n / 10);
    }
  }

  /** Distinct numbers have distinct decimal texts. */
  lemma DecimalInjective(m: nat, n: nat)
    requires DecimalText(m) == DecimalText(n)
    ensures m == n
  {
    DecimalRoundTrip(m);
    DecimalRoundTrip(n);
  }

  /** `String.valueOf(int)`: a minus sign before the digits of a negative value. */
  function IntText(v: int): string
  {
    if v < 0 then "-" + DecimalText(-v) else DecimalText(v)
  }
}
