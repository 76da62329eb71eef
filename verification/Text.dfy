/**
 The string operations of Rust's standard library that the modelled code relies on,
 written over sequences so that the same definitions serve strings and token lists.
*/
module Text {

  datatype Option<+T> = None | Some(value: T)

  /** `str::replace`: leftmost, non-overlapping. */
  function Replace<T(==)>(s: seq<T>, pat: seq<T>, sub: seq<T>): seq<T>
    requires |pat| > 0
    decreases |s|
  {
    if s == [] then []
    else if pat <= s then sub + Replace(s[|pat|..], pat, sub)
    else [s[0]] + Replace(s[1..], pat, sub)
  }

  lemma Associates<T>(p: seq<T>, q: seq<T>, r: seq<T>)
    ensures (p + q) + r == p + (q + r)
  {
  }

  /** A stretch without the first pattern element is copied as it stands. */
  lemma {:induction false} ReplaceSkips<T>(u: seq<T>, rest: seq<T>, pat: seq<T>, sub: seq<T>)
    requires |pat| > 0 && pat[0] !in u
    ensures Replace(u + rest, pat, sub) == u + Replace(rest, pat, sub)
  {
    if u == [] {
      assert u + rest == rest;
    } else {
      ReplaceSkips(u[1..], rest, pat, sub);
      assert (u + rest)[1..] == u[1..] + rest;
    }
  }

  /** Rewriting the first element of a two-element pattern keeps the length ... */
  lemma {:induction false} ReplaceFirstOfTwoLength<T>(s: seq<T>, x: T, y: T, z: T)
    requires x != y
    ensures |Replace(s, [x, y], [z, y])| == |s|
    decreases |s|
  {
    if s == [] {
    } else if [x, y] <= s {
      ReplaceFirstOfTwoLength(s[2..], x, y, z);
    } else {
      ReplaceFirstOfTwoLength(s[1..], x, y, z);
    }
  }

  /** ... and acts position by position. */
  lemma {:induction false} ReplaceFirstOfTwo<T>(s: seq<T>, x: T, y: T, z: T, i: nat)
    requires x != y && i < |s|
    ensures |Replace(s, [x, y], [z, y])| == |s|
    ensures Replace(s, [x, y], [z, y])[i] == if s[i] == x && i + 1 < |s| && s[i + 1] == y then z else s[i]
    decreases |s|
  {
    ReplaceFirstOfTwoLength(s, x, y, z);
    if [x, y] <= s {
      assert s[0] == [x, y][0] && s[1] == [x, y][1];
      if i >= 2 {
        ReplaceFirstOfTwo(s[2..], x, y, z, i - 2);
      }
    } else {
      assert |s| > 1 ==> s == [s[0], s[1]] + s[2..];
      if i >= 1 {
        ReplaceFirstOfTwo(s[1..], x, y, z, i - 1);
      }
    }
  }

  /** Replacing a pattern whose first element is absent changes nothing. */
  lemma ReplaceAbsent<T>(s: seq<T>, pat: seq<T>, sub: seq<T>)
    requires |pat| > 0 && pat[0] !in s
    ensures Replace(s, pat, sub) == s
  {
    ReplaceSkips(s, [], pat, sub);
    assert s + [] == s;
  }

  lemma ReplaceOne<T>(x: T, s: seq<T>, p: T, sub: seq<T>)
    ensures Replace([x] + s, [p], sub) == (if x == p then sub else [x]) + Replace(s, [p], sub)
  {
    var whole, pat := [x] + s, [p];
    assert whole[0] == x && whole[1..] == s && pat[0] == p;
    assert whole[..1] == [x];
    assert pat <= whole <==> x == p;
    assert whole[|pat|..] == s;
  }

  /** `str::split` on one character. */
  function Split<T(==)>(s: seq<T>, sep: T): (parts: seq<seq<T>>)
    ensures |parts| > 0
    decreases |s|
  {
    if s == [] then [[]]
    else
      var rest := Split(s[1..], sep);
      if s[0] == sep then [[]] + rest else [[s[0]] + rest[0]] + rest[1..]
  }

  lemma SplitPeels<T>(x: T, s: seq<T>, sep: T)
    ensures Split([x] + s, sep)
         == if x == sep then [[]] + Split(s, sep) else [[x] + Split(s, sep)[0]] + Split(s, sep)[1..]
  {
    assert ([x] + s)[1..] == s;
  }

  lemma {:induction false} SplitOfConcat<T>(u: seq<T>, rest: seq<T>, sep: T)
    requires sep !in u
    ensures Split(u + rest, sep) == [u + Split(rest, sep)[0]] + Split(rest, sep)[1..]
  {
    if u == [] {
      assert u + rest == rest && u + Split(rest, sep)[0] == Split(rest, sep)[0];
    } else {
      SplitOfConcat(u[1..], rest, sep);
      assert (u + rest)[1..] == u[1..] + rest;
      assert [u[0]] + (u[1..] + Split(rest, sep)[0]) == u + Split(rest, sep)[0];
    }
  }

  /** The separator cuts cleanly: what follows it is split on its own. */
  lemma SplitAtSeparator<T>(u: seq<T>, rest: seq<T>, sep: T)
    requires sep !in u
    ensures Split(u + [sep] + rest, sep) == [u] + Split(rest, sep)
  {
    SplitOfConcat(u, [sep] + rest, sep);
    assert u + [sep] + rest == u + ([sep] + rest);
    assert ([sep] + rest)[1..] == rest;
    assert u + [] == u;
  }

  lemma SplitWithout<T>(u: seq<T>, sep: T)
    requires sep !in u
    ensures Split(u, sep) == [u]
  {
    SplitOfConcat(u, [], sep);
    assert u + [] == u;
  }

  /** What follows the last separator is the last part. */
  lemma {:induction false} SplitAtLast<T>(u: seq<T>, w: seq<T>, sep: T)
    requires sep !in w
    ensures Split(u + [sep] + w, sep) == Split(u, sep) + [w]
  {
    if u == [] {
      SplitAtSeparator([], w, sep);
      SplitWithout(w, sep);
      assert u + [sep] + w == [] + [sep] + w;
    } else {
      SplitAtLast(u[1..], w, sep);
      assert u + [sep] + w == [u[0]] + (u[1..] + [sep] + w);
      SplitPeels(u[0], u[1..] + [sep] + w, sep);
    }
  }

  // ----- Trimming -----

  function TrimStart(s: string, drop: char -> bool): (r: string)
    ensures r != "" ==> !drop(r[0])
  {
    if s == "" || !drop(s[0]) then s else TrimStart(s[1..], drop)
  }

  function TrimEnd(s: string, drop: char -> bool): (r: string)
    ensures r <= s
    ensures r != "" ==> !drop(r[|r| - 1])
  {
    if s == "" || !drop(s[|s| - 1]) then s else TrimEnd(s[..|s| - 1], drop)
  }

  /** `str::trim_matches`. */
  function Trim(s: string, drop: char -> bool): string {
    TrimEnd(TrimStart(s, drop), drop)
  }

  /** Nothing to drop at either end. */
  predicate Trimmed(s: string, drop: char -> bool) {
    s != "" ==> !drop(s[0]) && !drop(s[|s| - 1])
  }

  lemma {:induction false} TrimStartDrops(u: string, s: string, drop: char -> bool)
    requires forall i :: 0 <= i < |u| ==> drop(u[i])
    ensures TrimStart(u + s, drop) == TrimStart(s, drop)
  {
    if u == "" {
      assert u + s == s;
    } else {
      hide TrimStart;
      var rest := u[1..];
      TrimStartDrops(rest, s, drop);
      assert u + s == [u[0]] + (rest + s);
      TrimStartOne(u[0], rest + s, drop);
    }
  }

  lemma TrimStartOne(c: char, s: string, drop: char -> bool)
    requires drop(c)
    ensures TrimStart([c] + s, drop) == TrimStart(s, drop)
  {
    assert ([c] + s)[1..] == s;
  }

  lemma {:induction false} TrimEndDrops(s: string, v: string, drop: char -> bool)
    requires forall i :: 0 <= i < |v| ==> drop(v[i])
    ensures TrimEnd(s + v, drop) == TrimEnd(s, drop)
  {
    if v == "" {
      assert s + v == s;
    } else {
      hide TrimEnd;
      var rest, last := v[..|v| - 1], v[|v| - 1];
      TrimEndDrops(s, rest, drop);
      assert s + v == (s + rest) + [last];
      TrimEndOne(s + rest, last, drop);
    }
  }

  lemma TrimEndOne(s: string, c: char, drop: char -> bool)
    requires drop(c)
    ensures TrimEnd(s + [c], drop) == TrimEnd(s, drop)
  {
    assert (s + [c])[..|s|] == s;
  }

  /** Trimming removes exactly what was put around a trimmed text. */
  lemma TrimUnpads(u: string, s: string, v: string, drop: char -> bool)
    requires s != "" && Trimmed(s, drop)
    requires forall i :: 0 <= i < |u| ==> drop(u[i])
    requires forall i :: 0 <= i < |v| ==> drop(v[i])
    ensures Trim(u + s + v, drop) == s
  {
    Associates(u, s, v);
    TrimStartDrops(u, s + v, drop);
    assert TrimStart(s + v, drop) == s + v;
    TrimEndDrops(s, v, drop);
  }

  lemma TrimIsTrimmed(s: string, drop: char -> bool)
    ensures Trimmed(Trim(s, drop), drop)
  {
    var t := TrimStart(s, drop);
    var r := TrimEnd(t, drop);
    assert r != "" ==> r[0] == t[0];
  }

  /** The White_Space property of Unicode, which `str::trim` drops. */
  predicate IsWhitespace(c: char) {
    || '\t' <= c <= '\r' || c == ' ' || c == '\U{0085}' || c == '\U{00A0}' || c == '\U{1680}'
    || '\U{2000}' <= c <= '\U{200A}' || c == '\U{2028}' || c == '\U{2029}' || c == '\U{202F}'
    || c == '\U{205F}' || c == '\U{3000}'
  }

  // ----- ASCII characters -----

  predicate IsDigit(c: char) {
    '0' <= c <= '9'
  }

  function LowerChar(c: char): char {
    if 'A' <= c <= 'Z' then (c as int + 32) as char else c
  }

  /** `to_lowercase`, on ASCII text. */
  function ToLower(s: string): (r: string)
    ensures |r| == |s|
    ensures forall i :: 0 <= i < |s| ==> r[i] == LowerChar(s[i])
  {
    seq(|s|, i requires 0 <= i < |s| => LowerChar(s[i]))
  }

  /** The same character, or the two cases of one ASCII letter. */
  predicate SameLetter(c: char, d: char) {
    || c == d
    || ('A' <= c <= 'Z' && d as int == c as int + 32)
    || ('A' <= d <= 'Z' && c as int == d as int + 32)
  }

  /** Lowercasing makes equal exactly the texts that differ in case alone. */
  lemma LowerIsCaseBlind(u: string, v: string)
    ensures ToLower(u) == ToLower(v) <==> |u| == |v| && forall i :: 0 <= i < |u| ==> SameLetter(u[i], v[i])
  {
    if ToLower(u) == ToLower(v) {
      forall i | 0 <= i < |u|
        ensures SameLetter(u[i], v[i])
      {
        assert ToLower(u)[i] == ToLower(v)[i];
      }
    }
    if |u| == |v| && forall i :: 0 <= i < |u| ==> SameLetter(u[i], v[i]) {
      forall i | 0 <= i < |u|
        ensures ToLower(u)[i] == ToLower(v)[i]
      {
        assert SameLetter(u[i], v[i]);
      }
    }
  }

  predicate EndsWith(s: string, suffix: string) {
    |suffix| <= |s| && s[|s| - |suffix|..] == suffix
  }

  lemma EndsWithChar(s: string, c: char)
    ensures EndsWith(s, [c]) <==> s != "" && s[|s| - 1] == c
  {
    if s != "" {
      assert s[|s| - 1..] == [s[|s| - 1]];
    }
  }

  /** `str::contains`. */
  predicate Contains(s: string, part: string) {
    exists i :: 0 <= i <= |s| && part <= s[i..]
  }

  // ----- HTTP field values -----

  /** No control character but the tab (section 5.5 of RFC 9110). */
  predicate IsFieldValue(s: string) {
    forall i :: 0 <= i < |s| ==> s[i] == '\t' || (' ' <= s[i] && s[i] != '\U{007F}')
  }

  lemma FieldValueConcat(u: string, v: string)
    ensures IsFieldValue(u + v) <==> IsFieldValue(u) && IsFieldValue(v)
  {
    assert forall i :: 0 <= i < |u| ==> (u + v)[i] == u[i];
    assert forall i :: 0 <= i < |v| ==> (u + v)[|u| + i] == v[i];
  }

  // ----- Universal newlines -----

  predicate IsNewline(c: char) {
    c == '\r' || c == '\n'
  }

  /** Where the first line of `t` ends. */
  function BreakAt(t: string): (k: nat)
    ensures k <= |t|
    ensures k < |t| ==> IsNewline(t[k])
    ensures forall i :: 0 <= i < k ==> !IsNewline(t[i])
  {
    if t == "" || IsNewline(t[0]) then 0 else 1 + BreakAt(t[1..])
  }

  /** How many characters the line ending at `k` takes: CRLF counts as one ending. */
  function BreakLength(t: string, k: nat): (n: nat)
    requires k < |t|
    ensures 1 <= n && k + n <= |t|
  {
    if t[k] == '\r' && k + 1 < |t| && t[k + 1] == '\n' then 2 else 1
  }

  /** What follows the first line ending. */
  function AfterBreak(t: string): (rest: string)
    requires BreakAt(t) < |t|
    ensures |rest| < |t|
  {
    t[BreakAt(t) + BreakLength(t, BreakAt(t))..]
  }

  function FirstLine(t: string): string {
    t[..BreakAt(t)]
  }

  /** The lines of a text whose line endings are CRLF, CR or LF. */
  function Lines(t: string): (lines: seq<string>)
    ensures |lines| > 0
    decreases |t|
  {
    if BreakAt(t) == |t| then [t] else [FirstLine(t)] + Lines(AfterBreak(t))
  }

  /** Every line ending, of whichever spelling, as one `lf`. */
  function Unified<T(==)>(s: seq<T>, cr: T, lf: T): seq<T>
    decreases |s|
  {
    if s == [] then []
    else if |s| > 1 && s[0] == cr && s[1] == lf then [lf] + Unified(s[2..], cr, lf)
    else [if s[0] == cr then lf else s[0]] + Unified(s[1..], cr, lf)
  }

  /** Normalizing CRLF first and then CR is the same as reading the endings off once. */
  lemma {:induction false} UnifiedByReplacing<T>(s: seq<T>, cr: T, lf: T)
    requires cr != lf
    ensures Replace(Replace(s, [cr, lf], [lf]), [cr], [lf]) == Unified(s, cr, lf)
    decreases |s|
  {
    if s == [] {
    } else if |s| > 1 && s[0] == cr && s[1] == lf {
      UnifiedByReplacing(s[2..], cr, lf);
      var rest := Replace(s[2..], [cr, lf], [lf]);
      assert s[..2] == [cr, lf];
      assert Replace(s, [cr, lf], [lf]) == [lf] + rest;
      ReplaceOne(lf, rest, cr, [lf]);
    } else {
      UnifiedByReplacing(s[1..], cr, lf);
      var rest := Replace(s[1..], [cr, lf], [lf]);
      assert |s| > 1 ==> s == [s[0], s[1]] + s[2..];
      assert Replace(s, [cr, lf], [lf]) == [s[0]] + rest;
      ReplaceOne(s[0], rest, cr, [lf]);
    }
  }

  lemma {:induction false} UnifiedPlain(u: string, rest: string)
    requires forall i :: 0 <= i < |u| ==> !IsNewline(u[i])
    ensures Unified(u + rest, '\r', '\n') == u + Unified(rest, '\r', '\n')
  {
    if u == "" {
      assert u + rest == rest;
    } else {
      UnifiedPlain(u[1..], rest);
      assert (u + rest)[1..] == u[1..] + rest;
    }
  }

  /** A line ending of either length becomes one `\n`. */
  lemma UnifiedBreak(t: string, k: nat)
    requires k < |t| && IsNewline(t[k])
    ensures Unified(t[k..], '\r', '\n') == ['\n'] + Unified(t[k + BreakLength(t, k)..], '\r', '\n')
  {
    var s := t[k..];
    assert s[0] == t[k] && s[1..] == t[k + 1..];
    if |s| > 1 {
      assert s[1] == t[k + 1] && s[2..] == t[k + 2..];
    }
  }

  /** Splitting the unified text at `\n` gives the lines. */
  lemma {:induction false} UnifiedLines(t: string)
    ensures Split(Unified(t, '\r', '\n'), '\n') == Lines(t)
    decreases |t|
  {
    var k := BreakAt(t);
    var first := FirstLine(t);
    UnifiedPlain(first, t[k..]);
    assert first + t[k..] == t;
    assert '\n' !in first;
    if k == |t| {
      SplitWithout(t, '\n');
      assert first == t && t[k..] == "" && t + "" == t;
    } else {
      var rest := AfterBreak(t);
      UnifiedLines(rest);
      UnifiedBreak(t, k);
      hide Split, Unified, BreakAt, BreakLength, AfterBreak, FirstLine;
      SplitAtSeparator(first, Unified(rest, '\r', '\n'), '\n');
      Associates(first, ['\n'], Unified(rest, '\r', '\n'));
    }
  }
}
