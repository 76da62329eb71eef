/**
 The list of hashes a visitor submits: the parsing in `Handler::post` of
 `src/pages/home.rs`, from the decoded form field to the hashes that are looked up.
*/
module HashList {
  import opened Text

  const MAX_HASHES := 20

  datatype Answer = TooMany | NothingEntered | Crack(hashes: seq<string>)

  predicate IsStar(c: char) {
    c == '*'
  }

  function Clean(line: string): string {
    Trim(Trim(line, IsWhitespace), IsStar)
  }

  /** `map` and `filter` over the lines. */
  function Hashes(lines: seq<string>): seq<string> {
    if lines == [] then []
    else (if Clean(lines[0]) == "" then [] else [Clean(lines[0])]) + Hashes(lines[1..])
  }

  function ParseHashes(raw: string): seq<string> {
    var normalized := Replace(Replace(raw, ['\r', '\n'], ['\n']), ['\r'], ['\n']);
    Hashes(Split(normalized, '\n'))
  }

  function Submit(raw: string): Answer {
    var hashes := ParseHashes(raw);
    if |hashes| > MAX_HASHES then TooMany
    else if hashes == [] then NothingEntered
    else Crack(hashes)
  }

  /** The two replacements and the split read the lines of a text with any mixture of line endings. */
  lemma HashesAreOfLines(raw: string)
    ensures ParseHashes(raw) == Hashes(Lines(raw))
  {
    UnifiedByReplacing(raw, '\r', '\n');
    UnifiedLines(raw);
  }

  // ----- What is submitted is what is looked up -----

  /** A line a visitor may write for a hash: white space and stars around it, and a line ending. */
  datatype Entry = Entry(before: string, stars: string, hash: string, starsAfter: string, after: string, ending: string)

  predicate IsBlank(s: string) {
    forall i :: 0 <= i < |s| ==> IsWhitespace(s[i]) && !IsNewline(s[i])
  }

  predicate AllStars(s: string) {
    forall i :: 0 <= i < |s| ==> IsStar(s[i])
  }

  predicate IsHash(h: string) {
    && h != "" && Trimmed(h, IsWhitespace) && Trimmed(h, IsStar)
    && forall i :: 0 <= i < |h| ==> !IsNewline(h[i])
  }

  predicate IsEnding(s: string) {
    s == "\n" || s == "\r" || s == "\r\n"
  }

  predicate ValidEntry(e: Entry) {
    IsBlank(e.before) && IsBlank(e.after) && AllStars(e.stars) && AllStars(e.starsAfter) && IsHash(e.hash)
  }

  /** Only the last line may do without a line ending. */
  predicate ValidEntries(entries: seq<Entry>) {
    forall i :: 0 <= i < |entries| ==>
      ValidEntry(entries[i]) && (IsEnding(entries[i].ending) || (i == |entries| - 1 && entries[i].ending == ""))
  }

  function Starred(e: Entry): string {
    e.stars + e.hash + e.starsAfter
  }

  function LineOf(e: Entry): string {
    e.before + Starred(e) + e.after
  }

  function Typed(entries: seq<Entry>): string {
    if entries == [] then "" else LineOf(entries[0]) + entries[0].ending + Typed(entries[1..])
  }

  function HashesOf(entries: seq<Entry>): seq<string> {
    if entries == [] then [] else [entries[0].hash] + HashesOf(entries[1..])
  }

  lemma StarsAndHash(e: Entry)
    requires ValidEntry(e)
    ensures Starred(e) != "" && Trimmed(Starred(e), IsWhitespace)
    ensures Trim(Starred(e), IsStar) == e.hash
    ensures forall i :: 0 <= i < |Starred(e)| ==> !IsNewline(Starred(e)[i])
  {
    TrimUnpads(e.stars, e.hash, e.starsAfter, IsStar);
    hide Trim;
    var s := Starred(e);
    assert s[0] == if e.stars == "" then e.hash[0] else e.stars[0];
    assert s[|s| - 1] == if e.starsAfter == "" then e.hash[|e.hash| - 1] else e.starsAfter[|e.starsAfter| - 1];
  }

  lemma EntryIsCleaned(e: Entry)
    requires ValidEntry(e)
    ensures Clean(LineOf(e)) == e.hash
    ensures LineOf(e) != ""
    ensures forall i :: 0 <= i < |LineOf(e)| ==> !IsNewline(LineOf(e)[i])
  {
    StarsAndHash(e);
    hide Starred, Trim, Trimmed, IsHash;
    TrimUnpads(e.before, Starred(e), e.after, IsWhitespace);
  }

  lemma {:induction false} BreakAtConcat(u: string, v: string)
    requires forall i :: 0 <= i < |u| ==> !IsNewline(u[i])
    ensures BreakAt(u + v) == |u| + BreakAt(v)
  {
    if u == "" {
      assert u + v == v;
    } else {
      BreakAtConcat(u[1..], v);
      assert (u + v)[1..] == u[1..] + v && (u + v)[0] == u[0];
    }
  }

  /** A line and its ending come off as one line. */
  lemma LineComesOff(u: string, ending: string, rest: string)
    requires forall i :: 0 <= i < |u| ==> !IsNewline(u[i])
    requires IsEnding(ending) && (rest != "" ==> !IsNewline(rest[0]))
    ensures Lines(u + ending + rest) == [u] + Lines(rest)
  {
    var t := u + ending + rest;
    Associates(u, ending, rest);
    BreakAtConcat(u, ending + rest);
    assert BreakAt(ending + rest) == 0;
    assert t[|u|] == ending[0];
    assert |ending| == 2 ==> t[|u| + 1] == ending[1];
    assert |ending| == 1 && rest != "" ==> t[|u| + 1] == rest[0];
    assert BreakLength(t, |u|) == |ending|;
    assert t[|u| + |ending|..] == rest;
    assert t[..|u|] == u;
  }

  lemma LastLine(u: string)
    requires forall i :: 0 <= i < |u| ==> !IsNewline(u[i])
    ensures Lines(u) == [u]
  {
    BreakAtConcat(u, "");
    assert u + "" == u;
  }

  lemma TypedStartsInLine(entries: seq<Entry>)
    requires ValidEntries(entries)
    ensures Typed(entries) != "" ==> !IsNewline(Typed(entries)[0])
  {
    if entries != [] {
      var e := entries[0];
      EntryIsCleaned(e);
      hide Clean, LineOf, ValidEntry, IsEnding;
      assert Typed(entries)[0] == LineOf(e)[0];
    }
  }

  lemma HashesPeel(line: string, lines: seq<string>)
    ensures Hashes([line] + lines) == (if Clean(line) == "" then [] else [Clean(line)]) + Hashes(lines)
  {
    assert ([line] + lines)[1..] == lines;
  }

  /** What was typed, with stars, white space and line endings of any kind, is read as the hashes in order. */
  lemma {:induction false} TypedHashesAreRead(entries: seq<Entry>)
    requires ValidEntries(entries)
    ensures Hashes(Lines(Typed(entries))) == HashesOf(entries)
  {
    if entries == [] {
      LastLine("");
      assert Clean("") == "";
      HashesPeel("", []);
    } else {
      var e, rest := entries[0], entries[1..];
      assert ValidEntry(e) && e.hash != "";
      EntryIsCleaned(e);
      if e.ending == "" {
        assert rest == [];
        assert LineOf(e) + "" + "" == LineOf(e);
        LastLine(LineOf(e));
        HashesPeel(LineOf(e), []);
      } else {
        assert IsEnding(e.ending) && ValidEntries(rest);
        TypedHashesAreRead(rest);
        TypedStartsInLine(rest);
        hide Clean, LineOf, Lines, ValidEntry, IsEnding;
        LineComesOff(LineOf(e), e.ending, Typed(rest));
        HashesPeel(LineOf(e), Lines(Typed(rest)));
      }
    }
  }

  lemma HashesCounted(entries: seq<Entry>)
    ensures |HashesOf(entries)| == |entries|
  {
  }

  /** Up to twenty hashes are looked up as typed; more are refused, and none is no request. */
  lemma SubmittedAsTyped(entries: seq<Entry>)
    requires ValidEntries(entries)
    ensures Submit(Typed(entries))
         == if |entries| > MAX_HASHES then TooMany
            else if entries == [] then NothingEntered
            else Crack(HashesOf(entries))
  {
    HashesAreOfLines(Typed(entries));
    TypedHashesAreRead(entries);
    HashesCounted(entries);
  }

  // ----- Whatever is typed -----

  lemma {:induction false} LinesHoldNoNewlines(t: string, i: nat)
    requires i < |Lines(t)|
    ensures forall k :: 0 <= k < |Lines(t)[i]| ==> !IsNewline(Lines(t)[i][k])
    decreases |t|
  {
    if BreakAt(t) < |t| && i > 0 {
      LinesHoldNoNewlines(AfterBreak(t), i - 1);
    }
  }

  lemma {:induction false} TrimKeeps(s: string, drop: char -> bool, c: char)
    ensures c in Trim(s, drop) ==> c in s
  {
    TrimStartKeeps(s, drop, c);
  }

  lemma {:induction false} TrimStartKeeps(s: string, drop: char -> bool, c: char)
    ensures c in TrimStart(s, drop) ==> c in s
  {
    if s != "" && drop(s[0]) {
      TrimStartKeeps(s[1..], drop, c);
    }
  }

  lemma {:induction false} HashesComeFromLines(lines: seq<string>, h: string) returns (i: nat)
    requires h in Hashes(lines)
    ensures i < |lines| && h == Clean(lines[i]) && h != ""
  {
    if h == Clean(lines[0]) && h != "" {
      i := 0;
    } else {
      var rest := HashesComeFromLines(lines[1..], h);
      i := rest + 1;
    }
  }

  /** Nothing that is looked up is empty, spans lines or keeps a star at either end. */
  lemma LookedUpHashesAreClean(raw: string, h: string)
    requires h in ParseHashes(raw)
    ensures h != "" && '\r' !in h && '\n' !in h && Trimmed(h, IsStar)
    ensures Submit(raw).Crack? ==> 1 <= |Submit(raw).hashes| <= MAX_HASHES
  {
    HashesAreOfLines(raw);
    var i := HashesComeFromLines(Lines(raw), h);
    LinesHoldNoNewlines(raw, i);
    var line := Lines(raw)[i];
    TrimIsTrimmed(Trim(line, IsWhitespace), IsStar);
    TrimKeeps(line, IsWhitespace, '\r');
    TrimKeeps(line, IsWhitespace, '\n');
    TrimKeeps(Trim(line, IsWhitespace), IsStar, '\r');
    TrimKeeps(Trim(line, IsWhitespace), IsStar, '\n');
    hide Trim, Lines, ParseHashes;
  }
}
