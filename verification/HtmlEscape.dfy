/**
 The text-to-HTML escaper: `src/libs/html_escape.rs` and the cell renderer
 `CrackMatch::plaintext_html` of `src/cracking.rs`.

 The three passes the source writes as loops are methods here, each proved to compute
 the function of the same name; `escape_text` itself is a chain of replacements.
*/
module HtmlEscape {
  import opened Text

  // ----- Step 1: tabs to spaces -----

  function Spaces(n: nat): (s: string)
    ensures |s| == n && forall i :: 0 <= i < n ==> s[i] == ' '
  {
    seq(n, _ => ' ')
  }

  /** The first tab stop to the right of `cursor`. */
  function NextStop(cursor: nat, width: nat): (stop: nat)
    requires width > 0
    ensures cursor < stop <= cursor + width
  {
    cursor - cursor % width + width
  }

  lemma Quotient(q: int, r: int, w: int)
    requires 0 <= r < w
    ensures (w * q + r) % w == r
  {
    var x := w * q + r;
    var d := q - x / w;
    assert x == w * (x / w) + x % w;
    assert w * d == w * q - w * (x / w);
    Grows(w, d);
  }

  lemma Grows(w: int, d: int)
    requires w > 0
    ensures d >= 1 ==> w * d >= w
    ensures d <= -1 ==> w * d <= -w
  {
  }

  function TabsToSpaces(text: string, width: nat, cursor: nat): string
    requires width > 0
    decreases |text|
  {
    if text == "" then ""
    else if text[0] == '\t' then
      var stop := NextStop(cursor, width);
      Spaces(stop - cursor) + TabsToSpaces(text[1..], width, stop)
    else
      [text[0]] + TabsToSpaces(text[1..], width, if IsNewline(text[0]) then 0 else cursor + 1)
  }

  lemma ExpansionPeels(c: char, rest: string, width: nat, cursor: nat)
    requires width > 0
    ensures TabsToSpaces([c] + rest, width, cursor)
         == if c == '\t' then
              Spaces(NextStop(cursor, width) - cursor) + TabsToSpaces(rest, width, NextStop(cursor, width))
            else
              [c] + TabsToSpaces(rest, width, if IsNewline(c) then 0 else cursor + 1)
  {
    assert ([c] + rest)[1..] == rest;
  }

  lemma SpacesAddOne(n: nat)
    ensures Spaces(n) + " " == Spaces(n + 1)
  {
  }

  lemma NothingToExpand(width: nat, cursor: nat)
    requires width > 0
    ensures TabsToSpaces("", width, cursor) == "" && Spaces(0) == ""
  {
  }

  method ExpandTabs(text: string, width: nat) returns (result: string)
    requires width > 0
    ensures result == TabsToSpaces(text, width, 0)
  {
    hide TabsToSpaces, NextStop, Spaces;
    result := "";
    var cursor: nat := 0;
    assert text[0..] == text;
    for i := 0 to |text|
      invariant result + TabsToSpaces(text[i..], width, cursor) == TabsToSpaces(text, width, 0)
    {
      ghost var before, from, rest := result, cursor, text[i + 1..];
      assert text[i..] == [text[i]] + rest;
      ExpansionPeels(text[i], rest, width, cursor);
      if text[i] == '\t' {
        SpacesAddOne(0);
        NothingToExpand(width, 0);
        result := result + " ";
        cursor := cursor + 1;
        while cursor % width != 0
          invariant from < cursor <= NextStop(from, width)
          invariant result == before + Spaces(cursor - from)
          decreases NextStop(from, width) - cursor
        {
          StopsAreApart(from, cursor, width);
          SpacesAddOne(cursor - from);
          Associates(before, Spaces(cursor - from), " ");
          result := result + " ";
          cursor := cursor + 1;
        }
        StopsAreApart(from, cursor, width);
        Associates(before, Spaces(cursor - from), TabsToSpaces(rest, width, cursor));
      } else {
        result := result + [text[i]];
        cursor := cursor + 1;
        if text[i] == '\n' || text[i] == '\r' {
          cursor := 0;
        }
        Associates(before, [text[i]], TabsToSpaces(rest, width, cursor));
      }
    }
    assert text[|text|..] == "";
    NothingToExpand(width, cursor);
  }

  /** The next stop is a multiple of the width, and no column before it is. */
  lemma StopsAreApart(from: nat, cursor: nat, width: nat)
    requires width > 0 && from < cursor <= NextStop(from, width)
    ensures cursor % width == 0 <==> cursor == NextStop(from, width)
  {
    var q := from / width;
    assert from - from % width == width * q;
    var k := cursor - width * q;
    if k == width {
      assert cursor == width * (q + 1) + 0;
      Quotient(q + 1, 0, width);
    } else {
      Quotient(q, k, width);
    }
  }

  // ----- Step 2: entities -----

  function SpecialChar(c: char): string {
    match c
    case '&' => "&amp;"
    case '<' => "&lt;"
    case '>' => "&gt;"
    case '\"' => "&quot;"
    case '\'' => "&#039;"
    case _ => [c]
  }

  function HtmlSpecialChars(text: string): string {
    if text == "" then "" else SpecialChar(text[0]) + HtmlSpecialChars(text[1..])
  }

  /** One turn of the escaping loop. */
  method PushSpecial(result: string, ch: char) returns (longer: string)
    ensures longer == result + SpecialChar(ch)
  {
    match ch {
      case '&' => longer := result + "&amp;";
      case '<' => longer := result + "&lt;";
      case '>' => longer := result + "&gt;";
      case '\"' => longer := result + "&quot;";
      case '\'' => longer := result + "&#039;";
      case _ => longer := result + [ch];
    }
  }

  method EscapeSpecials(text: string) returns (result: string)
    ensures result == HtmlSpecialChars(text)
  {
    result := "";
    for i := 0 to |text|
      invariant result + HtmlSpecialChars(text[i..]) == HtmlSpecialChars(text)
    {
      EscapingPeels(result, text, i);
      result := PushSpecial(result, text[i]);
    }
  }

  lemma EscapingPeels(before: string, text: string, i: nat)
    requires i < |text|
    ensures before + HtmlSpecialChars(text[i..])
         == before + SpecialChar(text[i]) + HtmlSpecialChars(text[i + 1..])
  {
    var piece, rest := SpecialChar(text[i]), HtmlSpecialChars(text[i + 1..]);
    assert text[i..][0] == text[i] && text[i..][1..] == text[i + 1..];
    assert HtmlSpecialChars(text[i..]) == piece + rest;
    assert before + (piece + rest) == before + piece + rest;
  }

  // ----- Step 4: leading spaces -----

  function ReplaceLeadingSpaces(text: string, atLineStart: bool): string {
    if text == "" then ""
    else
      (if atLineStart && text[0] == ' ' then "&nbsp;" else [text[0]])
      + ReplaceLeadingSpaces(text[1..], text[0] == '\n')
  }

  method HardenLeading(text: string) returns (result: string)
    ensures result == ReplaceLeadingSpaces(text, true)
  {
    result := "";
    var atLineStart := true;
    for i := 0 to |text|
      invariant result + ReplaceLeadingSpaces(text[i..], atLineStart) == ReplaceLeadingSpaces(text, true)
    {
      HardeningPeels(result, text, i, atLineStart);
      if atLineStart && text[i] == ' ' {
        result := result + "&nbsp;";
      } else {
        result := result + [text[i]];
      }
      atLineStart := text[i] == '\n';
    }
  }

  lemma HardeningPeels(before: string, text: string, i: nat, atLineStart: bool)
    requires i < |text|
    ensures before + ReplaceLeadingSpaces(text[i..], atLineStart)
         == before + (if atLineStart && text[i] == ' ' then "&nbsp;" else [text[i]])
            + ReplaceLeadingSpaces(text[i + 1..], text[i] == '\n')
  {
    assert text[i..][0] == text[i] && text[i..][1..] == text[i + 1..];
    Associates(before, if atLineStart && text[i] == ' ' then "&nbsp;" else [text[i]],
      ReplaceLeadingSpaces(text[i + 1..], text[i] == '\n'));
  }

  // ----- The pipeline -----

  /** Steps 2 to 5 on tab-free text. */
  function Protect(text: string): string {
    var esc := HtmlSpecialChars(text);
    var esc := Replace(esc, "  ", " &nbsp;");
    var esc := ReplaceLeadingSpaces(esc, true);
    var esc := Replace(esc, " \r", "&nbsp;\r");
    Replace(esc, " \n", "&nbsp;\n")
  }

  /** Step 6. */
  function BreakLines(esc: string): string {
    var esc := Replace(esc, "\r\n", "\n");
    var esc := Replace(esc, "\r", "\n");
    Replace(esc, "\n", "<br />\n")
  }

  function EscapeText(text: string, brTags: bool, width: nat): string
    requires width > 0
  {
    var esc := Protect(TabsToSpaces(text, width, 0));
    if brTags then BreakLines(esc) else esc
  }

  method Escape(text: string, brTags: bool, width: nat) returns (esc: string)
    requires width > 0
    ensures esc == EscapeText(text, brTags, width)
  {
    esc := ExpandTabs(text, width);
    esc := EscapeSpecials(esc);
    esc := Replace(esc, "  ", " &nbsp;");
    esc := HardenLeading(esc);
    esc := Replace(esc, " \r", "&nbsp;\r");
    esc := Replace(esc, " \n", "&nbsp;\n");
    if brTags {
      esc := Replace(esc, "\r\n", "\n");
      esc := Replace(esc, "\r", "\n");
      esc := Replace(esc, "\n", "<br />\n");
    }
  }

  const CELL_TAB_WIDTH: nat := 8

  /** The last character is protected too, because a table cell ends there. */
  function ProtectEnd(esc: string): string {
    if EndsWith(esc, " ") then esc[..|esc| - 1] + "&nbsp;" else esc
  }

  function PlaintextHtml(plaintext: string): string {
    ProtectEnd(EscapeText(plaintext, false, CELL_TAB_WIDTH))
  }
}
