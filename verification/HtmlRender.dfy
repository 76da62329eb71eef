/**
 A reader of the escaper's output, independent of how that output was produced: a
 tokenizer for the six character references and `<br />`, and the white space
 processing of `white-space: normal` (section 4.1 of CSS Text Module Level 3).
*/
module HtmlRender {
  import opened Text

  datatype Node =
    | Glyph(c: char)   // a character, literal or by reference
    | Break            // <br />
    | Stray(c: char)   // `<` or `&` that begins neither: markup the text was not meant to contain

  const NO_BREAK_SPACE: char := '\U{A0}'

  /** The reference at the start of `html`, and how long it is; `nbsp` is what `&nbsp;` stands for. */
  function Reference(html: string, nbsp: char): (r: Option<(char, nat)>)
    ensures r.Some? ==> 0 < r.value.1 <= |html|
  {
    if "&amp;" <= html then Some(('&', 5))
    else if "&lt;" <= html then Some(('<', 4))
    else if "&gt;" <= html then Some(('>', 4))
    else if "&quot;" <= html then Some(('\"', 6))
    else if "&#039;" <= html then Some(('\'', 6))
    else if "&nbsp;" <= html then Some((nbsp, 6))
    else None
  }

  function Parse(html: string, nbsp: char): seq<Node>
    decreases |html|
  {
    if html == "" then []
    else if html[0] == '&' then
      match Reference(html, nbsp)
      case Some((c, n)) => [Glyph(c)] + Parse(html[n..], nbsp)
      case None => [Stray('&')] + Parse(html[1..], nbsp)
    else if html[0] == '<' then
      if "<br />" <= html then [Break] + Parse(html[6..], nbsp)
      else [Stray('<')] + Parse(html[1..], nbsp)
    else [Glyph(html[0])] + Parse(html[1..], nbsp)
  }

  /** A text as nothing but characters. */
  function Glyphs(t: string): (nodes: seq<Node>)
    ensures |nodes| == |t| && forall i :: 0 <= i < |t| ==> nodes[i] == Glyph(t[i])
  {
    seq(|t|, i requires 0 <= i < |t| => Glyph(t[i]))
  }

  // ----- White space processing -----

  predicate Collapsible(c: char) {
    c == ' ' || c == '\t' || c == '\n' || c == '\r' || c == '\U{0C}'
  }

  /** Each run of collapsible characters becomes one space, or nothing when `atGap`. */
  function Collapse(t: string, atGap: bool): string {
    if t == "" then ""
    else if Collapsible(t[0]) then (if atGap then "" else " ") + Collapse(t[1..], true)
    else [t[0]] + Collapse(t[1..], false)
  }

  /** No-break spaces look like spaces. */
  function Shown(t: string): (s: string)
    ensures |s| == |t|
    ensures forall i :: 0 <= i < |t| ==> s[i] == if t[i] == NO_BREAK_SPACE then ' ' else t[i]
  {
    seq(|t|, i requires 0 <= i < |t| => if t[i] == NO_BREAK_SPACE then ' ' else t[i])
  }

  /** What one line box shows: white space collapsed and removed at both of its ends. */
  function Display(t: string): string {
    var c := Collapse(t, true);
    Shown(if EndsWith(c, " ") then c[..|c| - 1] else c)
  }

  /** The text of each line, where only `Break` ends a line. */
  function Segments(nodes: seq<Node>): (lines: seq<string>)
    ensures |lines| > 0
  {
    if nodes == [] then [""]
    else
      var rest := Segments(nodes[1..]);
      if nodes[0].Break? then [""] + rest else [[nodes[0].c] + rest[0]] + rest[1..]
  }

  function DisplayAll(lines: seq<string>): (shown: seq<string>)
    ensures |shown| == |lines| && forall i :: 0 <= i < |lines| ==> shown[i] == Display(lines[i])
  {
    seq(|lines|, i requires 0 <= i < |lines| => Display(lines[i]))
  }

  function ShownAll(lines: seq<string>): (shown: seq<string>)
    ensures |shown| == |lines| && forall i :: 0 <= i < |lines| ==> shown[i] == Shown(lines[i])
  {
    seq(|lines|, i requires 0 <= i < |lines| => Shown(lines[i]))
  }

  /** The lines a browser shows for a fragment of HTML. */
  function RenderLines(html: string): seq<string> {
    DisplayAll(Segments(Parse(html, NO_BREAK_SPACE)))
  }

  // ----- When display changes nothing -----

  /**
   White space that survives: a collapsible character must be a single space strictly
   inside the text, with no other collapsible character beside it.
  */
  predicate TidyAt(t: string, i: nat)
    requires i < |t|
  {
    Collapsible(t[i]) ==>
      t[i] == ' ' && 0 < i < |t| - 1 && !Collapsible(t[i - 1]) && !Collapsible(t[i + 1])
  }

  predicate Tidy(t: string) {
    forall i: nat :: i < |t| ==> TidyAt(t, i)
  }

  /** The same, for a text entered with or without a gap behind it, and not yet trimmed. */
  predicate TidyFrom(t: string, atGap: bool) {
    && (t != "" && Collapsible(t[0]) ==> !atGap)
    && forall i :: 0 <= i < |t| && Collapsible(t[i]) ==>
         t[i] == ' ' && (i > 0 ==> !Collapsible(t[i - 1]))
  }

  lemma {:induction false} CollapseLength(t: string, atGap: bool)
    ensures |Collapse(t, atGap)| <= |t|
  {
    if t != "" {
      CollapseLength(t[1..], Collapsible(t[0]));
    }
  }

  lemma {:induction false} CollapseKeeps(t: string, atGap: bool)
    requires TidyFrom(t, atGap)
    ensures Collapse(t, atGap) == t
  {
    if t != "" {
      var rest := t[1..];
      forall i | 0 <= i < |rest| && Collapsible(rest[i])
        ensures rest[i] == ' ' && (i > 0 ==> !Collapsible(rest[i - 1]))
      {
        assert t[i + 1] == rest[i];
      }
      assert rest != "" ==> t[1] == rest[0];
      CollapseKeeps(rest, Collapsible(t[0]));
      assert t == [t[0]] + rest;
    }
  }

  /** Display shows a text character for character exactly when its white space survives. */
  lemma DisplayKeeps(t: string)
    ensures Display(t) == Shown(t) <==> Tidy(t)
  {
    if Tidy(t) {
      TidyIsKept(t);
    }
    if Display(t) == Shown(t) {
      KeptIsTidy(t);
    }
  }

  lemma TidyIsKept(t: string)
    requires Tidy(t)
    ensures Display(t) == Shown(t)
  {
    assert t != "" ==> TidyAt(t, 0) && TidyAt(t, |t| - 1);
    forall i | 0 <= i < |t| && Collapsible(t[i])
      ensures t[i] == ' ' && (i > 0 ==> !Collapsible(t[i - 1]))
    {
      assert TidyAt(t, i);
    }
    CollapseKeeps(t, true);
    EndsWithChar(t, ' ');
  }

  lemma KeptIsTidy(t: string)
    requires Display(t) == Shown(t)
    ensures Tidy(t)
  {
    var c := Collapse(t, true);
    CollapseLength(t, true);
    assert |c| == |t| && !EndsWith(c, " ");
    CollapseLossless(t, true);
    forall i: nat | i < |t| && Collapsible(t[i])
      ensures TidyAt(t, i)
    {
      assert Shown(c)[i] == Shown(t)[i];
      Gaps(t, true, i);
      EndsWithChar(c, ' ');
    }
  }

  /** When nothing was dropped, only the kind of white space may have changed. */
  lemma {:induction false} CollapseLossless(t: string, atGap: bool)
    requires |Collapse(t, atGap)| == |t|
    ensures forall i :: 0 <= i < |t| ==>
      Collapse(t, atGap)[i] == if Collapsible(t[i]) then ' ' else t[i]
  {
    if t != "" {
      CollapseLength(t[1..], Collapsible(t[0]));
      CollapseLossless(t[1..], Collapsible(t[0]));
    }
  }

  lemma {:induction false} Gaps(t: string, atGap: bool, i: nat)
    requires |Collapse(t, atGap)| == |t|
    requires i < |t| && Collapsible(t[i])
    ensures if i == 0 then !atGap else !Collapsible(t[i - 1])
    ensures i + 1 < |t| ==> !Collapsible(t[i + 1])
  {
    var gap := Collapsible(t[0]);
    CollapseLength(t[1..], gap);
    if i > 0 {
      Gaps(t[1..], gap, i - 1);
    } else if |t| > 1 && Collapsible(t[1]) {
      Gaps(t[1..], gap, 0);
    }
  }
}
