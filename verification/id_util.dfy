/** The identifier transducers of `IdUtil`:
    - `ToId`: method name to `AD` id (three-state cursor with a pending memory);
    - `CreateId`: simple class name to id (two-state cursor);
    - `ToFieldName`: id to Java field name (split on `_`, capitalize, join).
    Each cursor is a state datatype and a step function; the conversion is the
    fold of the step over the characters, and each fold is proved equal to an
    independent, lookahead-based reference definition. */
module IdUtil {
  import opened JavaText
  import opened Results

  const Low: char := '_'
  const Dollar: char := '$'

  // ===========================================================================
  // toId

  datatype State = Normal | InDollar | InLow

  /** The Java `Cursor`: its state and the characters it is holding back. */
  datatype Cursor = Cursor(state: State, memory: string)

  const Start: Cursor := Cursor(Normal, "")

  /** One call of `Cursor.process`: the next cursor and the text appended. */
  function Step(cur: Cursor, c: char): (Cursor, string)
  {
    match cur.state
    case Normal =>
      if c == Dollar then (Cursor(InDollar, cur.memory + [c]), "")
      else if c == Low then (Cursor(InLow, cur.memory + [c]), "")
      else (cur, [c])
    case InDollar =>
      if c == Dollar then (Cursor(Normal, ""), if cur.memory == "$_" then "-" else [c])
      else if c == Low then (Cursor(InDollar, cur.memory + [c]), "")
      else (Cursor(Normal, ""), [c])
    case InLow =>
      (Cursor(Normal, ""), if c == Low then "_" else ['.', c])
  }

  /** Feeds every character of `s` to the cursor and concatenates the output.
      Whatever the cursor still holds when the input ends is discarded. */
  function Run(cur: Cursor, s: string): string
    decreases |s|
  {
    if |s| == 0 then [] else Step(cur, s[0]).1 + Run(Step(cur, s[0]).0, s[1..])
  }

  /** The cursor after the whole input. */
  function Final(cur: Cursor, s: string): Cursor
    decreases |s|
  {
    if |s| == 0 then cur else Final(Step(cur, s[0]).0, s[1..])
  }

  /** `IdUtil.toId`. */
  function ToId(name: string): string
  {
    Run(Start, name)
  }

  /** `toId` performs exactly the reference rewrite `RefId`. */
  lemma {:induction false} ToIdIsRef(name: string)
    ensures ToId(name) == RefId(name)
  {
    RunIsRef(Start, name);
    assert Start.memory + name == name;
  }

  /** An id is never longer than the method name it comes from. */
  lemma {:induction false} ToIdShorter(name: string)
    ensures |ToId(name)| <= |name|
  {
    ToIdIsRef(name);
    RefIdShorter(name);
  }

  predicate AllLows(s: string) {
    forall i :: 0 <= i < |s| ==> s[i] == Low
  }

  /** The memory always agrees with the state: empty in NORMAL, `_` in
      IN_LOW, and `$` followed by underscores only in IN_DOLLAR. */
  predicate WellFormed(cur: Cursor) {
    match cur.state
    case Normal => cur.memory == ""
    case InLow => cur.memory == "_"
    case InDollar => |cur.memory| >= 1 && cur.memory[0] == Dollar && AllLows(cur.memory[1..])
  }

  lemma {:induction false} StepWellFormed(cur: Cursor, c: char)
    requires WellFormed(cur)
    ensures WellFormed(Step(cur, c).0)
  {
    if cur.state == InDollar && c == Low {
      var m := cur.memory + [c];
      assert m[1..] == cur.memory[1..] + [c];
    }
  }

  /** Number of `_` at the start of `s`. */
  function LeadingLows(s: string): (k: nat)
    ensures k <= |s|
    ensures AllLows(s[..k])
    ensures k < |s| ==> s[k] != Low
    decreases |s|
  {
    if |s| > 0 && s[0] == Low then
      var k := 1 + LeadingLows(s[1..]);
      assert s[..k] == [s[0]] + s[1..][..k - 1];
      k
    else 0
  }

  lemma {:induction false} LeadingLowsAppend(a: string, b: string)
    requires AllLows(a)
    ensures LeadingLows(a + b) == |a| + LeadingLows(b)
    decreases |a|
  {
    if |a| > 0 {
      assert (a + b)[1..] == a[1..] + b;
      LeadingLowsAppend(a[1..], b);
    } else {
      assert a + b == b;
    }
  }

  /** The rewrite `toId` performs, read off the input with lookahead:
      - `__` gives `_`; `_` and any other character c gives `.` then c;
      - `$`, any number k of `_`, then `$` gives `-` when k = 1, `$` otherwise;
      - `$`, any number of `_`, then any other character c gives c;
      - a trailing `_`, or `$` followed only by `_`s, gives nothing;
      - every other character is copied. */
  function RefId(s: string): string
    decreases |s|
  {
    if |s| == 0 then []
    else if s[0] == Low then
      if |s| == 1 then []
      else if s[1] == Low then "_" + RefId(s[2..])
      else ['.', s[1]] + RefId(s[2..])
    else if s[0] == Dollar then
      var k := LeadingLows(s[1..]);
      if 1 + k == |s| then []
      else
        var c := s[1 + k];
        (if c == Dollar then (if k == 1 then "-" else "$") else [c]) + RefId(s[2 + k..])
    else [s[0]] + RefId(s[1..])
  }

  lemma {:induction false} RefIdShorter(s: string)
    ensures |RefId(s)| <= |s|
    decreases |s|
  {
    if |s| == 0 {
    } else if s[0] == Low {
      if |s| > 1 {
        RefIdShorter(s[2..]);
      }
    } else if s[0] == Dollar {
      var k := LeadingLows(s[1..]);
      if 1 + k < |s| {
        RefIdShorter(s[2 + k..]);
      }
    } else {
      RefIdShorter(s[1..]);
    }
  }

  /** The cursor run from any well-formed cursor is the reference rewrite of
      the held-back memory followed by the rest of the input. */
  lemma {:induction false} RunIsRef(cur: Cursor, s: string)
    requires WellFormed(cur)
    ensures Run(cur, s) == RefId(cur.memory + s)
    decreases |s|
  {
    var m := cur.memory;
    if |s| == 0 {
      assert m + s == m;
      if cur.state == InDollar {
        LeadingLowsAppend(m[1..], "");
        assert m[1..] + "" == m[1..];
      }
    } else {
      var (next, out) := Step(cur, s[0]);
      StepWellFormed(cur, s[0]);
      RunIsRef(next, s[1..]);
      match cur.state
      case Normal => StepIsRefNormal(cur, s);
      case InLow => StepIsRefInLow(cur, s);
      case InDollar => StepIsRefInDollar(cur, s);
    }
  }

  /** One step from NORMAL agrees with the reference rewrite. */
  lemma {:induction false} StepIsRefNormal(cur: Cursor, s: string)
    requires cur == Start && |s| > 0
    ensures Step(cur, s[0]).1 + RefId(Step(cur, s[0]).0.memory + s[1..]) == RefId(cur.memory + s)
  {
    assert cur.memory + s == s;
    if s[0] == Dollar || s[0] == Low {
      assert Step(cur, s[0]).0.memory + s[1..] == s;
    } else {
      assert Step(cur, s[0]).0.memory + s[1..] == s[1..];
    }
  }

  /** One step from IN_LOW agrees with the reference rewrite. */
  lemma {:induction false} StepIsRefInLow(cur: Cursor, s: string)
    requires cur == Cursor(InLow, "_") && |s| > 0
    ensures Step(cur, s[0]).1 + RefId(Step(cur, s[0]).0.memory + s[1..]) == RefId(cur.memory + s)
  {
    var u := cur.memory + s;
    assert u[0] == Low && u[1] == s[0] && u[2..] == s[1..];
    assert Step(cur, s[0]).0.memory + s[1..] == s[1..];
  }

  /** One step from IN_DOLLAR agrees with the reference rewrite. */
  lemma {:induction false} StepIsRefInDollar(cur: Cursor, s: string)
    requires cur.state == InDollar && WellFormed(cur) && |s| > 0
    ensures Step(cur, s[0]).1 + RefId(Step(cur, s[0]).0.memory + s[1..]) == RefId(cur.memory + s)
  {
    if s[0] == Low {
      DollarThenLow(cur.memory, s);
      assert Step(cur, s[0]) == (Cursor(InDollar, cur.memory + [Low]), "");
    } else {
      DollarThenOther(cur.memory, s);
      var out := if s[0] == Dollar then (if cur.memory == "$_" then "-" else "$") else [s[0]];
      assert Step(cur, s[0]) == (Start, out);
      assert Start.memory + s[1..] == s[1..];
    }
  }

  /** Another `_` after `$` is only held back. */
  lemma {:induction false} DollarThenLow(m: string, s: string)
    requires |m| >= 1 && m[0] == Dollar && AllLows(m[1..])
    requires |s| > 0 && s[0] == Low
    ensures (m + [Low]) + s[1..] == m + s
  {
  }

  /** A `$` or ordinary character after `$` and underscores ends the run. */
  lemma {:induction false} DollarThenOther(m: string, s: string)
    requires |m| >= 1 && m[0] == Dollar && AllLows(m[1..])
    requires |s| > 0 && s[0] != Low
    ensures (if s[0] == Dollar then (if m == "$_" then "-" else "$") else [s[0]]) + RefId(s[1..])
            == RefId(m + s)
  {
    var u := m + s;
    var k := |m| - 1;
    assert u[1..] == m[1..] + s;
    LeadingLowsAppend(m[1..], s);
    assert u[1 + k] == s[0];
    assert u[2 + k..] == s[1..];
    DollarRunEnds(u, k);
    DollarMemory(m);
  }

  lemma {:induction false} DollarMemory(m: string)
    requires |m| >= 1 && m[0] == Dollar && AllLows(m[1..])
    ensures (m == "$_") <==> (|m| == 2)
  {
    if |m| == 2 {
      assert m == [m[0], m[1]];
    }
  }

  /** The reference rewrite of `$`, k underscores and a further character. */
  lemma {:induction false} DollarRunEnds(u: string, k: nat)
    requires |u| > 1 + k && u[0] == Dollar && LeadingLows(u[1..]) == k
    ensures RefId(u) == (if u[1 + k] == Dollar then (if k == 1 then "-" else "$") else [u[1 + k]]) + RefId(u[2 + k..])
  {
  }

  /** A name without `_` or `$` is its own id. */
  lemma {:induction false} ToIdPlain(name: string)
    requires Low !in name && Dollar !in name
    ensures ToId(name) == name
    decreases |name|
  {
    if |name| > 0 {
      ToIdPlain(name[1..]);
      assert [name[0]] + name[1..] == name;
    }
  }

  /** Characters other than `_` and `$` in front are copied and leave the
      cursor where it was. */
  lemma {:induction false} PlainPrefix(a: string, t: string)
    requires Low !in a && Dollar !in a
    ensures ToId(a + t) == a + ToId(t)
    decreases |a|
  {
    if |a| > 0 {
      assert (a + t)[1..] == a[1..] + t;
      PlainPrefix(a[1..], t);
      assert [a[0]] + a[1..] == a;
    } else {
      assert a + t == t;
    }
  }

  /** `__` collapses to a single `_`. */
  lemma {:induction false} DoubleLow(t: string)
    ensures ToId("__" + t) == "_" + ToId(t)
  {
    ToIdIsRef("__" + t);
    ToIdIsRef(t);
    assert ("__" + t)[2..] == t;
  }

  /** A single `_` before any other character c (even `$`) becomes `.` then c. */
  lemma {:induction false} LowBefore(c: char, t: string)
    requires c != Low
    ensures ToId([Low, c] + t) == ['.', c] + ToId(t)
  {
    ToIdIsRef([Low, c] + t);
    ToIdIsRef(t);
    assert ([Low, c] + t)[2..] == t;
  }

  /** `$$` collapses to a single `$`. */
  lemma {:induction false} DoubleDollar(t: string)
    ensures ToId("$$" + t) == "$" + ToId(t)
  {
    ToIdIsRef("$$" + t);
    ToIdIsRef(t);
    var u := "$$" + t;
    assert u[1..] == "$" + t;
    assert LeadingLows(u[1..]) == 0;
    assert u[2..] == t;
  }

  /** `$_$` becomes `-`. */
  lemma {:induction false} DollarLowDollar(t: string)
    ensures ToId("$_$" + t) == "-" + ToId(t)
  {
    ToIdIsRef("$_$" + t);
    ToIdIsRef(t);
    var u := "$_$" + t;
    assert u[1..] == "_" + ("$" + t);
    LeadingLowsAppend("_", "$" + t);
    assert u[3..] == t;
  }

  /** `$`, two or more `_`, then `$` becomes `$`. */
  lemma {:induction false} DollarLowsDollar(lows: string, t: string)
    requires |lows| >= 2 && AllLows(lows)
    ensures ToId("$" + lows + "$" + t) == "$" + ToId(t)
  {
    ToIdIsRef("$" + lows + "$" + t);
    ToIdIsRef(t);
    var u := "$" + lows + "$" + t;
    assert u[1..] == lows + ("$" + t);
    LeadingLowsAppend(lows, "$" + t);
    assert u[1 + |lows|] == '$';
    assert u[2 + |lows|..] == t;
  }

  /** `$`, any number of `_`, then an ordinary character c: the `$` and the
      `_`s are dropped and c is kept. */
  lemma {:induction false} DollarDropped(lows: string, c: char, t: string)
    requires AllLows(lows) && c != Low && c != Dollar
    ensures ToId("$" + lows + [c] + t) == [c] + ToId(t)
  {
    ToIdIsRef("$" + lows + [c] + t);
    ToIdIsRef(t);
    var u := "$" + lows + [c] + t;
    assert u[1..] == lows + ([c] + t);
    LeadingLowsAppend(lows, [c] + t);
    assert u[1 + |lows|] == c;
    assert u[2 + |lows|..] == t;
  }

  /** Running over a concatenation runs over the second part from where the
      first part left the cursor. */
  lemma {:induction false} RunAppend(cur: Cursor, a: string, b: string)
    ensures Run(cur, a + b) == Run(cur, a) + Run(Final(cur, a), b)
    decreases |a|
  {
    if |a| == 0 {
      assert a + b == b;
    } else {
      assert (a + b)[1..] == a[1..] + b;
      RunAppend(Step(cur, a[0]).0, a[1..], b);
    }
  }

  lemma {:induction false} FinalWellFormed(cur: Cursor, s: string)
    requires WellFormed(cur)
    ensures WellFormed(Final(cur, s))
    decreases |s|
  {
    if |s| > 0 {
      StepWellFormed(cur, s[0]);
      FinalWellFormed(Step(cur, s[0]).0, s[1..]);
    }
  }

  /** A `_`, `$` or `$_` still pending when the name ends emits nothing. */
  lemma {:induction false} PendingDropped(name: string, pending: string)
    requires Final(Start, name).state == Normal
    requires pending == "_" || pending == "$" || pending == "$_"
    ensures ToId(name + pending) == ToId(name)
  {
    RunAppend(Start, name, pending);
    FinalWellFormed(Start, name);
    assert Final(Start, name) == Start;
    assert Run(Start, pending) == [] by {
      if pending == "$_" {
        assert pending[1..] == "_";
        assert Run(Cursor(InDollar, "$"), "_") == [];
      }
    }
  }

  // ===========================================================================
  // createId

  /** The Java `SEACursor` states: inside a run of upper-case letters (the
      initial state) or after some other character. */
  datatype SeaState = InUp | InLowRun

  /** One call of `SEACursor.process`. */
  function SeaStep(st: SeaState, c: char): (SeaState, string)
  {
    match st
    case InUp =>
      if IsUpper(c) then (InUp, [ToLower(c)]) else (InLowRun, [c])
    case InLowRun =>
      if IsUpper(c) then (InUp, ['.', ToLower(c)]) else (InLowRun, [c])
  }

  /** The fold of `SeaStep`; its output never holds an upper-case letter. */
  function SeaRun(st: SeaState, s: string): (r: string)
    ensures forall k :: 0 <= k < |r| ==> !IsUpper(r[k])
    decreases |s|
  {
    if |s| == 0 then []
    else
      var (next, out) := SeaStep(st, s[0]);
      out + SeaRun(next, s[1..])
  }

  /** `IdUtil.createId`: equal to the reference `Segments`, and free of
      upper-case letters. */
  function CreateId(className: string): (r: string)
    ensures r == Segments(className, 0)
    ensures forall k :: 0 <= k < |r| ==> !IsUpper(r[k])
  {
    SeaRunIsSegments(className, 0);
    assert className[0..] == className;
    SeaRun(InUp, className)
  }

  /** A `.` goes before position i exactly when an upper-case letter there
      follows a character that is not upper-case. */
  predicate Boundary(s: string, i: nat)
    requires i < |s|
  {
    0 < i && IsUpper(s[i]) && !IsUpper(s[i - 1])
  }

  /** The reference for `createId`: each character lower-cased, preceded by a
      `.` at each boundary, concatenated from position i on. */
  function Segments(s: string, i: nat): string
    requires i <= |s|
    decreases |s| - i
  {
    if i == |s| then []
    else (if Boundary(s, i) then "." else "") + [ToLower(s[i])] + Segments(s, i + 1)
  }

  /** The cursor state reached after reading s[..i]. */
  function SeaStateAt(s: string, i: nat): SeaState
    requires i <= |s|
  {
    if i == 0 || IsUpper(s[i - 1]) then InUp else InLowRun
  }

  lemma {:induction false} SeaRunIsSegments(s: string, i: nat)
    requires i <= |s|
    ensures SeaRun(SeaStateAt(s, i), s[i..]) == Segments(s, i)
    decreases |s| - i
  {
    if i < |s| {
      SeaRunIsSegments(s, i + 1);
      assert s[i..][1..] == s[i + 1..];
    }
  }

  /** A class name without upper-case letters is its own id. */
  lemma {:induction false} CreateIdNoUpper(className: string)
    requires forall k :: 0 <= k < |className| ==> !IsUpper(className[k])
    ensures CreateId(className) == className
  {
    SegmentsNoUpper(className, 0);
  }

  lemma {:induction false} SegmentsNoUpper(s: string, i: nat)
    requires i <= |s|
    requires forall k :: 0 <= k < |s| ==> !IsUpper(s[k])
    ensures Segments(s, i) == s[i..]
    decreases |s| - i
  {
    if i < |s| {
      SegmentsNoUpper(s, i + 1);
      assert s[i..] == [s[i]] + s[i + 1..];
    }
  }

  /** A run of upper-case letters is lower-cased without any `.` inside it. */
  lemma {:induction false} CreateIdUpperRun(className: string)
    requires forall k :: 0 <= k < |className| ==> IsUpper(className[k])
    ensures CreateId(className) == LowerAll(className)
  {
    SegmentsUpperRun(className, 0);
  }

  lemma {:induction false} SegmentsUpperRun(s: string, i: nat)
    requires i <= |s|
    requires forall k :: 0 <= k < |s| ==> IsUpper(s[k])
    ensures Segments(s, i) == LowerAll(s[i..])
    decreases |s| - i
  {
    if i < |s| {
      SegmentsUpperRun(s, i + 1);
      assert LowerAll(s[i..]) == [ToLower(s[i])] + LowerAll(s[i + 1..]);
    }
  }

  /** Number of boundaries at positions i and after. */
  function Boundaries(s: string, i: nat): nat
    requires i <= |s|
    decreases |s| - i
  {
    if i == |s| then 0 else (if Boundary(s, i) then 1 else 0) + Boundaries(s, i + 1)
  }

  /** The id is one character per input character plus one `.` per boundary. */
  lemma {:induction false} CreateIdLength(className: string)
    ensures |CreateId(className)| == |className| + Boundaries(className, 0)
  {
    SegmentsLength(className, 0);
  }

  lemma {:induction false} SegmentsLength(s: string, i: nat)
    requires i <= |s|
    ensures |Segments(s, i)| == |s| - i + Boundaries(s, i)
    decreases |s| - i
  {
    if i < |s| {
      SegmentsLength(s, i + 1);
    }
  }

  // ===========================================================================
  // toFieldName

  /** `id.split("_")`: with no `_` the whole string is the only part (so `""`
      gives `[""]`); otherwise every piece, trailing empty pieces removed. */
  function JavaSplit(s: string): (r: seq<string>)
    ensures forall i :: 0 <= i < |r| ==> Low !in r[i]
  {
    if Low !in s then [s] else DropTrailingEmpty(Split(s, Low))
  }

  function DropTrailingEmpty(ps: seq<string>): (r: seq<string>)
    ensures |r| <= |ps| && r == ps[..|r|]
    ensures |r| > 0 ==> r[|r| - 1] != []
    ensures forall i :: |r| <= i < |ps| ==> ps[i] == []
    decreases |ps|
  {
    if |ps| > 0 && ps[|ps| - 1] == [] then DropTrailingEmpty(ps[..|ps| - 1]) else ps
  }

  /** `capialize`: first character upper-cased; `substring(0, 1)` throws on an
      empty part. */
  function Capitalize(p: string): (r: Result<string>)
    ensures r.Ok? <==> |p| > 0
    ensures r.Ok? ==> |r.value| == |p| && LowerAll(r.value) == LowerAll(p)
  {
    if |p| == 0 then Err(StringIndexOutOfBounds)
    else
      LowerOfUpper(p[0]);
      Ok([ToUpper(p[0])] + p[1..])
  }

  /** `capialize` applied to every part, in order. */
  function Capitals(parts: seq<string>): (r: seq<Result<string>>)
    ensures |r| == |parts|
    ensures forall i :: 0 <= i < |parts| ==> r[i] == Capitalize(parts[i])
  {
    seq(|parts|, i requires 0 <= i < |parts| => Capitalize(parts[i]))
  }

  /** `IdUtil.toFieldName`. */
  function ToFieldName(id: string): (r: Result<string>)
    ensures r.Ok? <==> ValidFieldId(id)
    ensures r.Ok? ==> |r.value| > 0 && !IsUpper(r.value[0]) && Low !in r.value
    ensures r.Ok? ==> LowerAll(r.value) == LowerAll(Remove(id, Low))
  {
    var parts := JavaSplit(id);
    var caps := AllOk(Capitals(parts));
    JavaSplitShape(id);
    if caps.Err? then Err(caps.failure)
    else
      var joined := Concat(caps.value);
      if |joined| == 0 then Err(StringIndexOutOfBounds)
      else
        var r := [ToLower(joined[0])] + joined[1..];
        FieldNameContent(id, parts, caps.value, joined, r);
        Ok(r)
  }

  /** The ids `toFieldName` accepts: once trailing `_`s are ignored, the id is
      not empty, does not start with `_` and holds no `__`. */
  predicate ValidFieldId(id: string) {
    var t := TrimLows(id);
    |t| > 0 && t[0] != Low && NoDoubleLow(t)
  }

  function TrimLows(s: string): (t: string)
    ensures |t| <= |s| && t == s[..|t|]
    ensures AllLows(s[|t|..])
    ensures |t| > 0 ==> t[|t| - 1] != Low
    decreases |s|
  {
    if |s| > 0 && s[|s| - 1] == Low then TrimLows(s[..|s| - 1]) else s
  }

  predicate NoDoubleLow(t: string) {
    forall i :: 0 <= i < |t| - 1 ==> !(t[i] == Low && t[i + 1] == Low)
  }

  predicate AllNonEmpty(ps: seq<string>) {
    forall i :: 0 <= i < |ps| ==> |ps[i]| > 0
  }

  /** What the split hands to `capialize`: a non-empty list of non-empty
      parts exactly for valid ids, and the same characters minus the `_`s. */
  lemma {:induction false} JavaSplitShape(id: string)
    ensures (|JavaSplit(id)| > 0 && AllNonEmpty(JavaSplit(id))) <==> ValidFieldId(id)
    ensures Concat(JavaSplit(id)) == Remove(id, Low)
    ensures |JavaSplit(id)| > 0 && AllNonEmpty(JavaSplit(id)) ==> |JavaSplit(id)[0]| > 0
  {
    var t := TrimLows(id);
    ConcatSplit(id, Low);
    if Low !in id {
      SplitFree(id, Low);
      assert TrimLows(id) == id;
      assert Concat([id]) == id;
    } else {
      SplitTrim(id);
      ConcatDropTrailing(Split(id, Low));
      if |t| == 0 {
        assert Split(t, Low) == [[]];
      } else {
        SplitLastNonEmpty(t);
        PiecesNonEmpty(t);
      }
    }
  }

  /** Appending `_` appends an empty piece. */
  lemma {:induction false} SplitAppendLow(t: string)
    ensures Split(t + [Low], Low) == Split(t, Low) + [[]]
    decreases |t|
  {
    if |t| == 0 {
      assert t + [Low] == [Low];
    } else {
      assert (t + [Low])[1..] == t[1..] + [Low];
      SplitAppendLow(t[1..]);
    }
  }

  /** Trailing `_`s only add trailing empty pieces, which the split drops. */
  lemma {:induction false} SplitTrim(s: string)
    ensures DropTrailingEmpty(Split(s, Low)) == DropTrailingEmpty(Split(TrimLows(s), Low))
    decreases |s|
  {
    if |s| > 0 && s[|s| - 1] == Low {
      var s' := s[..|s| - 1];
      assert s == s' + [Low];
      SplitAppendLow(s');
      var ps := Split(s', Low) + [[]];
      assert ps[..|ps| - 1] == Split(s', Low);
      SplitTrim(s');
    }
  }

  lemma {:induction false} SplitLastNonEmpty(t: string)
    requires |t| > 0 && t[|t| - 1] != Low
    ensures var ps := Split(t, Low); ps[|ps| - 1] != []
    decreases |t|
  {
    if |t| > 1 {
      SplitLastNonEmpty(t[1..]);
    }
  }

  /** For a string not ending in `_`: every piece is non-empty exactly when
      it does not start with `_` and holds no `__`. */
  lemma {:induction false} PiecesNonEmpty(t: string)
    requires |t| == 0 || t[|t| - 1] != Low
    ensures AllNonEmpty(Split(t, Low)) <==> |t| > 0 && t[0] != Low && NoDoubleLow(t)
  {
    var ps := Split(t, Low);
    TailPiecesNonEmpty(t);
    if |t| > 0 && t[0] != Low {
      assert |ps[0]| > 0;
      assert AllNonEmpty(ps) <==> forall i :: 1 <= i < |ps| ==> |ps[i]| > 0;
    } else {
      assert ps[0] == [];
    }
  }

  /** For a string not ending in `_`: all pieces after the first are
      non-empty exactly when it holds no `__`. */
  lemma {:induction false} TailPiecesNonEmpty(t: string)
    requires |t| == 0 || t[|t| - 1] != Low
    ensures var ps := Split(t, Low);
      (forall i :: 1 <= i < |ps| ==> |ps[i]| > 0) <==> NoDoubleLow(t)
    decreases |t|
  {
    if |t| > 0 {
      var r := t[1..];
      var ps, qs := Split(t, Low), Split(r, Low);
      TailPiecesNonEmpty(r);
      assert NoDoubleLow(t) <==> NoDoubleLow(r) && !(|t| > 1 && t[0] == Low && t[1] == Low) by {
        if NoDoubleLow(r) && !(|t| > 1 && t[0] == Low && t[1] == Low) {
          forall i | 0 <= i < |t| - 1
            ensures !(t[i] == Low && t[i + 1] == Low)
          {
            if i > 0 {
              assert t[i] == r[i - 1] && t[i + 1] == r[i];
            }
          }
        }
        if NoDoubleLow(t) {
          forall i | 0 <= i < |r| - 1
            ensures !(r[i] == Low && r[i + 1] == Low)
          {
            assert r[i] == t[i + 1] && r[i + 1] == t[i + 2];
          }
        }
      }
      if t[0] == Low {
        assert |r| > 0;
        assert ps == [[]] + qs;
        assert (forall i :: 1 <= i < |ps| ==> |ps[i]| > 0) <==> AllNonEmpty(qs);
        assert (|qs[0]| > 0) <==> r[0] != Low;
        assert AllNonEmpty(qs) <==> |qs[0]| > 0 && forall i :: 1 <= i < |qs| ==> |qs[i]| > 0;
      } else {
        assert ps[1..] == qs[1..];
        assert (forall i :: 1 <= i < |ps| ==> |ps[i]| > 0) <==> (forall i :: 1 <= i < |qs| ==> |qs[i]| > 0) by {
          forall i | 1 <= i < |ps|
            ensures ps[i] == qs[i]
          {
            assert ps[i] == ps[1..][i - 1];
          }
        }
      }
    }
  }

  /** Dropping trailing empty pieces does not change the concatenation. */
  lemma {:induction false} ConcatDropTrailing(ps: seq<string>)
    ensures Concat(DropTrailingEmpty(ps)) == Concat(ps)
    decreases |ps|
  {
    if |ps| > 0 && ps[|ps| - 1] == [] {
      var ps' := ps[..|ps| - 1];
      ConcatDropTrailing(ps');
      ConcatAppend(ps', [[]]);
      assert ps' + [[]] == ps;
    }
  }

  /** Capitalizing each part changes case only. */
  lemma {:induction false} ConcatCapitalized(ps: seq<string>, cs: seq<string>)
    requires |cs| == |ps|
    requires forall i :: 0 <= i < |ps| ==> Capitalize(ps[i]) == Ok(cs[i])
    ensures LowerAll(Concat(cs)) == LowerAll(Concat(ps))
    ensures |Concat(cs)| == |Concat(ps)|
    decreases |ps|
  {
    if |ps| > 0 {
      ConcatCapitalized(ps[1..], cs[1..]);
      LowerAllAppend(cs[0], Concat(cs[1..]));
      LowerAllAppend(ps[0], Concat(ps[1..]));
    }
  }

  lemma {:induction false} FieldNameContent(id: string, parts: seq<string>, caps: seq<string>, joined: string, r: string)
    requires parts == JavaSplit(id)
    requires |caps| == |parts|
    requires forall i :: 0 <= i < |parts| ==> Capitalize(parts[i]) == Ok(caps[i])
    requires joined == Concat(caps) && |joined| > 0
    requires r == [ToLower(joined[0])] + joined[1..]
    ensures LowerAll(r) == LowerAll(Remove(id, Low))
    ensures Low !in r
  {
    JavaSplitShape(id);
    ConcatCapitalized(parts, caps);
    assert LowerAll(r) == LowerAll(joined);
  }


  // ===========================================================================
  // The unit-test cases, stated for every input of their shape

  /** Neither `_` nor `$`. */
  predicate Plain(s: string) {
    Low !in s && Dollar !in s
  }

  predicate AllPlain(parts: seq<string>) {
    forall i :: 0 <= i < |parts| ==> Plain(parts[i])
  }

  /** `IdUtilTest.toId`: a name without `_` or `$` is unchanged. */
  lemma {:induction false} ToIdSimpleName()
    ensures ToId("simpleName") == "simpleName"
  {
    ToIdPlain("simpleName");
  }

  /** A leading ordinary character is copied. */
  lemma {:induction false} PlainHead(t: string)
    requires |t| > 0 && t[0] != Low && t[0] != Dollar
    ensures ToId(t) == [t[0]] + ToId(t[1..])
  {
    PlainPrefix([t[0]], t[1..]);
    assert [t[0]] + t[1..] == t;
  }

  /** A `_` before an ordinary character becomes a `.`. */
  lemma {:induction false} LowThenPlain(t: string)
    requires |t| > 0 && t[0] != Low && t[0] != Dollar
    ensures ToId("_" + t) == "." + ToId(t)
  {
    LowBefore(t[0], t[1..]);
    assert "_" + t == [Low, t[0]] + t[1..];
    PlainHead(t);
  }

  /** A `$` before an ordinary character is dropped. */
  lemma {:induction false} DollarThenPlain(t: string)
    requires |t| > 0 && t[0] != Low && t[0] != Dollar
    ensures ToId("$" + t) == ToId(t)
  {
    DollarDropped("", t[0], t[1..]);
    assert "$" + t == "$" + "" + [t[0]] + t[1..];
    PlainHead(t);
  }

  /** The head of a join is the head of its first part. */
  lemma {:induction false} JoinFirst(parts: seq<string>, sep: string)
    requires |parts| >= 1 && |parts[0]| > 0
    ensures |Join(parts, sep)| > 0 && Join(parts, sep)[0] == parts[0][0]
  {
  }

  /** The first case of `IdUtilTest.toId_WithUnder`, for every such input:
      non-empty plain parts joined by `_` become the parts joined by `.`. */
  lemma {:induction false} ToIdDottedPath(parts: seq<string>)
    requires |parts| >= 1 && AllPlain(parts) && AllNonEmpty(parts)
    ensures ToId(Join(parts, "_")) == Join(parts, ".")
    decreases |parts|
  {
    if |parts| == 1 {
      ToIdPlain(parts[0]);
    } else {
      var rest := Join(parts[1..], "_");
      ToIdDottedPath(parts[1..]);
      JoinFirst(parts[1..], "_");
      assert Plain(parts[1]);
      LowThenPlain(rest);
      PlainPrefix(parts[0], "_" + rest);
      assert Join(parts, "_") == parts[0] + ("_" + rest);
    }
  }

  /** The escapes of `IdUtilTest.toId_WithUnder` and `toId_WithDollar`, for
      every input of their shape: plain parts joined by `__`, `$$` or `$_$`
      become the parts joined by `_`, `$` or `-`. */
  lemma {:induction false} ToIdEscapedPath(parts: seq<string>, sep: string, rep: string)
    requires |parts| >= 1 && AllPlain(parts)
    requires (sep == "__" && rep == "_") || (sep == "$$" && rep == "$") || (sep == "$_$" && rep == "-")
    ensures ToId(Join(parts, sep)) == Join(parts, rep)
    decreases |parts|
  {
    if |parts| == 1 {
      ToIdPlain(parts[0]);
    } else {
      var rest := Join(parts[1..], sep);
      ToIdEscapedPath(parts[1..], sep, rep);
      assert Plain(parts[0]);
      PlainPrefix(parts[0], sep + rest);
      assert Join(parts, sep) == parts[0] + (sep + rest);
      if sep == "__" {
        DoubleLow(rest);
      } else if sep == "$$" {
        DoubleDollar(rest);
      } else {
        DollarLowDollar(rest);
      }
    }
  }

  /** The first case of `IdUtilTest.toId_WithDollar`, for every such input:
      plain parts joined by single `$`s, each part after the first non-empty,
      lose the `$`s. */
  lemma {:induction false} ToIdDollarsDropped(parts: seq<string>)
    requires |parts| >= 1 && AllPlain(parts) && AllNonEmpty(parts[1..])
    ensures ToId(Join(parts, "$")) == Concat(parts)
    decreases |parts|
  {
    if |parts| == 1 {
      ToIdPlain(parts[0]);
    } else {
      var rest := Join(parts[1..], "$");
      assert parts[1..][1..] == parts[2..];
      ToIdDollarsDropped(parts[1..]);
      assert |parts[1..][0]| > 0;
      JoinFirst(parts[1..], "$");
      assert Plain(parts[1]);
      DollarThenPlain(rest);
      assert Plain(parts[0]);
      PlainPrefix(parts[0], "$" + rest);
      assert Join(parts, "$") == parts[0] + ("$" + rest);
    }
  }

  /** Upper-case letters followed only by other characters: one word of a
      class name ("My", "VPn", "CONfiguration"). */
  predicate CamelWord(w: string) {
    |w| > 0 && IsUpper(w[0]) && !IsUpper(w[|w| - 1]) && UppersFirst(w)
  }

  /** No upper-case letter comes after a character that is not upper-case. */
  predicate UppersFirst(w: string) {
    forall i, j :: 0 <= i < j < |w| && !IsUpper(w[i]) ==> !IsUpper(w[j])
  }

  /** The state `SEACursor` is left in. */
  function SeaEnd(st: SeaState, s: string): SeaState
    decreases |s|
  {
    if |s| == 0 then st else SeaEnd(SeaStep(st, s[0]).0, s[1..])
  }

  lemma {:induction false} SeaRunAppend(st: SeaState, a: string, b: string)
    ensures SeaRun(st, a + b) == SeaRun(st, a) + SeaRun(SeaEnd(st, a), b)
    ensures SeaEnd(st, a + b) == SeaEnd(SeaEnd(st, a), b)
    decreases |a|
  {
    if |a| == 0 {
      assert a + b == b;
    } else {
      var (next, out) := SeaStep(st, a[0]);
      assert (a + b)[0] == a[0] && (a + b)[1..] == a[1..] + b;
      assert SeaRun(st, a + b) == out + SeaRun(next, a[1..] + b);
      assert SeaEnd(st, a + b) == SeaEnd(next, a[1..] + b);
      SeaRunAppend(next, a[1..], b);
    }
  }

  /** After a lower-case run, characters that are not upper-case are copied. */
  lemma {:induction false} SeaRunNoUpper(s: string)
    requires forall k :: 0 <= k < |s| ==> !IsUpper(s[k])
    ensures SeaRun(InLowRun, s) == s && SeaEnd(InLowRun, s) == InLowRun
    decreases |s|
  {
    if |s| > 0 {
      SeaRunNoUpper(s[1..]);
      assert [s[0]] + s[1..] == s;
    }
  }

  /** From the start state, upper-case letters then other characters are
      lower-cased without a `.`. */
  lemma {:induction false} SeaRunUppersFirst(s: string)
    requires UppersFirst(s)
    ensures SeaRun(InUp, s) == LowerAll(s)
    ensures |s| > 0 && !IsUpper(s[|s| - 1]) ==> SeaEnd(InUp, s) == InLowRun
    decreases |s|
  {
    if |s| > 0 {
      assert LowerAll(s) == [ToLower(s[0])] + LowerAll(s[1..]);
      if IsUpper(s[0]) {
        SeaRunUppersFirst(s[1..]);
      } else {
        SeaRunNoUpper(s[1..]);
        assert LowerAll(s[1..]) == s[1..];
      }
    }
  }

  /** A word read after a lower-case run is lower-cased behind a `.`. */
  lemma {:induction false} SeaRunWord(w: string)
    requires CamelWord(w)
    ensures SeaRun(InLowRun, w) == "." + LowerAll(w)
    ensures SeaEnd(InLowRun, w) == InLowRun
  {
    assert |w| > 1;
    SeaRunUppersFirst(w[1..]);
    assert w[1..][|w[1..]| - 1] == w[|w| - 1];
    assert LowerAll(w) == [ToLower(w[0])] + LowerAll(w[1..]);
  }

  /** Each word lower-cased. */
  function LowerEach(words: seq<string>): (r: seq<string>)
    ensures |r| == |words|
  {
    if |words| == 0 then [] else [LowerAll(words[0])] + LowerEach(words[1..])
  }

  lemma {:induction false} SeaRunWords(words: seq<string>)
    requires |words| >= 1
    requires forall i :: 0 <= i < |words| ==> CamelWord(words[i])
    ensures SeaRun(InLowRun, Concat(words)) == "." + Join(LowerEach(words), ".")
    ensures SeaEnd(InLowRun, Concat(words)) == InLowRun
    decreases |words|
  {
    SeaRunWord(words[0]);
    SeaRunAppend(InLowRun, words[0], Concat(words[1..]));
    if |words| == 1 {
      assert Concat(words[1..]) == [];
    } else {
      SeaRunWords(words[1..]);
    }
  }

  /** `IdUtilTest.createId`, for every input of its shape: a class name made
      of words becomes the lower-cased words joined by `.`. */
  lemma {:induction false} CreateIdWords(words: seq<string>)
    requires |words| >= 1
    requires forall i :: 0 <= i < |words| ==> CamelWord(words[i])
    ensures CreateId(Concat(words)) == Join(LowerEach(words), ".")
  {
    SeaRunUppersFirst(words[0]);
    SeaRunAppend(InUp, words[0], Concat(words[1..]));
    if |words| == 1 {
      assert Concat(words[1..]) == [];
    } else {
      SeaRunWords(words[1..]);
    }
  }

  /** The camel-case tail: each part with its first character upper-cased. */
  function CamelTail(parts: seq<string>): string
    requires AllNonEmpty(parts)
  {
    if |parts| == 0 then [] else [ToUpper(parts[0][0])] + parts[0][1..] + CamelTail(parts[1..])
  }

  lemma {:induction false} ConcatCamel(parts: seq<string>, caps: seq<string>)
    requires AllNonEmpty(parts) && |caps| == |parts|
    requires forall i :: 0 <= i < |parts| ==> caps[i] == [ToUpper(parts[i][0])] + parts[i][1..]
    ensures Concat(caps) == CamelTail(parts)
    decreases |parts|
  {
    if |parts| > 0 {
      ConcatCamel(parts[1..], caps[1..]);
    }
  }

  /** Splitting non-empty parts joined by `_` gives the parts back. */
  lemma {:induction false} JavaSplitJoin(parts: seq<string>)
    requires |parts| >= 1 && AllNonEmpty(parts)
    requires forall i :: 0 <= i < |parts| ==> Low !in parts[i]
    ensures JavaSplit(Join(parts, "_")) == parts
  {
    var id := Join(parts, "_");
    if |parts| > 1 {
      SplitJoin(parts, Low);
      assert id == parts[0] + "_" + Join(parts[1..], "_");
      assert id[|parts[0]|] == Low;
    }
  }

  /** `IdUtilTest.toFieldName`, for every input of its shape: non-empty parts
      joined by `_` become camel case, first character lower-cased. */
  lemma ToFieldNameCamelCase(parts: seq<string>)
    requires |parts| >= 1 && AllNonEmpty(parts)
    requires forall i :: 0 <= i < |parts| ==> Low !in parts[i]
    ensures ToFieldName(Join(parts, "_")) == Ok([ToLower(parts[0][0])] + parts[0][1..] + CamelTail(parts[1..]))
  {
    JavaSplitJoin(parts);
    FieldNameOfParts(Join(parts, "_"), parts);
  }

  /** The field name depends on the id only through its split. */
  lemma FieldNameOfParts(id: string, parts: seq<string>)
    requires JavaSplit(id) == parts
    requires |parts| >= 1 && AllNonEmpty(parts)
    ensures ToFieldName(id) == Ok([ToLower(parts[0][0])] + parts[0][1..] + CamelTail(parts[1..]))
  {
    var camel := [ToUpper(parts[0][0])] + parts[0][1..] + CamelTail(parts[1..]);
    CapitalsCamel(parts);
    LowerFirst(parts[0], CamelTail(parts[1..]));
    FieldNameOfJoined(id, camel);
  }

  /** Lower-casing the first character undoes upper-casing it. */
  lemma LowerFirst(p: string, tail: string)
    requires |p| > 0
    ensures var camel := [ToUpper(p[0])] + p[1..] + tail;
      [ToLower(camel[0])] + camel[1..] == [ToLower(p[0])] + p[1..] + tail
  {
    var camel := [ToUpper(p[0])] + p[1..] + tail;
    LowerOfUpper(p[0]);
    assert camel[1..] == p[1..] + tail;
  }

  /** Non-empty parts all capitalize, and their concatenation is camel case. */
  lemma CapitalsCamel(parts: seq<string>)
    requires |parts| >= 1 && AllNonEmpty(parts)
    ensures AllOk(Capitals(parts)).Ok?
    ensures Concat(AllOk(Capitals(parts)).value) == [ToUpper(parts[0][0])] + parts[0][1..] + CamelTail(parts[1..])
  {
    ConcatCamel(parts, AllOk(Capitals(parts)).value);
  }

  /** `toFieldName` lower-cases the first character of the joined capitals. */
  lemma FieldNameOfJoined(id: string, joined: string)
    requires AllOk(Capitals(JavaSplit(id))).Ok?
    requires Concat(AllOk(Capitals(JavaSplit(id))).value) == joined && |joined| > 0
    ensures ToFieldName(id) == Ok([ToLower(joined[0])] + joined[1..])
  {
  }
}
