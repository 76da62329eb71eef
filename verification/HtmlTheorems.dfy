/**
 What the escaper promises: text that cannot become markup, that reads back as itself,
 and that a browser displays as a text editor would.
*/
module HtmlTheorems {
  import opened Text
  import opened HtmlEscape
  import opened HtmlRender
  import opened HtmlAtoms

  // ----- Tab expansion -----

  lemma {:induction false} NoTabs(text: string, width: nat, cursor: nat)
    requires width > 0
    ensures '\t' !in TabsToSpaces(text, width, cursor)
  {
    if text == "" {
    } else if text[0] == '\t' {
      NoTabs(text[1..], width, NextStop(cursor, width));
    } else {
      NoTabs(text[1..], width, if IsNewline(text[0]) then 0 else cursor + 1);
    }
  }

  /** Expansion adds only spaces and removes only tabs. */
  lemma {:induction false} ExpansionKeeps(text: string, width: nat, cursor: nat, c: char)
    requires width > 0 && c != ' ' && c != '\t'
    ensures c in TabsToSpaces(text, width, cursor) <==> c in text
  {
    if text == "" {
    } else if text[0] == '\t' {
      ExpansionKeeps(text[1..], width, NextStop(cursor, width), c);
    } else {
      ExpansionKeeps(text[1..], width, if IsNewline(text[0]) then 0 else cursor + 1, c);
    }
  }

  /** The column at which the text after `out` would be written, in a column-counting editor. */
  function ColumnAfter(out: string, column: nat): nat {
    if out == "" then column
    else ColumnAfter(out[1..], if IsNewline(out[0]) then 0 else column + 1)
  }

  lemma {:induction false} ColumnOfConcat(u: string, v: string, column: nat)
    ensures ColumnAfter(u + v, column) == ColumnAfter(v, ColumnAfter(u, column))
  {
    if u == "" {
      assert u + v == v;
    } else {
      ColumnOfConcat(u[1..], v, if IsNewline(u[0]) then 0 else column + 1);
      assert (u + v)[1..] == u[1..] + v;
    }
  }

  lemma {:induction false} ColumnOfSpaces(n: nat, column: nat)
    ensures ColumnAfter(Spaces(n), column) == column + n
  {
    if n > 0 {
      ColumnOfSpaces(n - 1, column + 1);
      assert Spaces(n)[1..] == Spaces(n - 1);
    }
  }

  /** A tab after any text ends at a tab stop of the displayed column, at least one and at most `width` on. */
  lemma {:induction false} TabReachesNextStop(text: string, width: nat, cursor: nat)
    requires width > 0
    ensures var before := ColumnAfter(TabsToSpaces(text, width, cursor), cursor);
      var after := ColumnAfter(TabsToSpaces(text + "\t", width, cursor), cursor);
      before < after <= before + width && after % width == 0
  {
    if text == "" {
      var stop := NextStop(cursor, width);
      assert text + "\t" == "\t" && "\t"[1..] == "";
      assert Spaces(stop - cursor) + "" == Spaces(stop - cursor);
      ColumnOfSpaces(stop - cursor, cursor);
      StopsAreApart(cursor, stop, width);
    } else {
      assert (text + "\t")[1..] == text[1..] + "\t";
      if text[0] == '\t' {
        var stop := NextStop(cursor, width);
        TabReachesNextStop(text[1..], width, stop);
        ColumnOfSpaces(stop - cursor, cursor);
        ColumnOfConcat(Spaces(stop - cursor), TabsToSpaces(text[1..], width, stop), cursor);
        ColumnOfConcat(Spaces(stop - cursor), TabsToSpaces(text[1..] + "\t", width, stop), cursor);
      } else {
        var next := if IsNewline(text[0]) then 0 else cursor + 1;
        TabReachesNextStop(text[1..], width, next);
        ColumnOfConcat([text[0]], TabsToSpaces(text[1..], width, next), cursor);
        ColumnOfConcat([text[0]], TabsToSpaces(text[1..] + "\t", width, next), cursor);
        assert ColumnAfter([text[0]], cursor) == ColumnAfter([text[0]][1..], next) == next;
      }
    }
  }

  // ----- No markup, and a faithful reading -----

  /** No character that HTML gives a meaning to, and no `&` that is not one of the six references. */
  predicate Inert(html: string) {
    forall i :: 0 <= i < |html| ==>
      && html[i] !in ['<', '>', '\"', '\'']
      && (html[i] == '&' ==> Reference(html[i..], ' ').Some?)
  }

  lemma {:induction false} CleanIsInert(atoms: seq<Atom>)
    requires Clean(atoms)
    ensures Inert(Flat(atoms))
  {
    if atoms != [] {
      var a, html, rest := atoms[0], Flat(atoms), Flat(atoms[1..]);
      var n := |Source(a)|;
      CleanIsInert(atoms[1..]);
      forall i | 0 <= i < |html|
        ensures html[i] !in ['<', '>', '\"', '\'']
        ensures html[i] == '&' ==> Reference(html[i..], ' ').Some?
      {
        if i >= n {
          assert html[i] == rest[i - n] && html[i..] == rest[i - n..];
        } else {
          SourceIsInert(a, rest, i);
        }
      }
    }
  }

  lemma SourceIsInert(a: Atom, rest: string, i: nat)
    requires !a.Br? && (a.Raw? ==> !Special(a.c)) && i < |Source(a)|
    ensures (Source(a) + rest)[i] !in ['<', '>', '\"', '\'']
    ensures (Source(a) + rest)[i] == '&' ==> Reference((Source(a) + rest)[i..], ' ').Some?
  {
    if !a.Raw? {
      ReadEntity(a, rest, ' ');
      assert (Source(a) + rest)[0..] == Source(a) + rest;
    }
  }

  lemma ProtectedIsClean(t: string)
    ensures Clean(Protected(t))
  {
  }

  /**
   Without line tags the output is inert, and reading it back with `&nbsp;` as a space
   gives the tab-expanded text: no later pass damages an entity or loses a character.
  */
  lemma EscapedTextReadsBack(text: string, width: nat)
    requires width > 0
    ensures Inert(EscapeText(text, false, width))
    ensures Parse(EscapeText(text, false, width), ' ') == Glyphs(TabsToSpaces(text, width, 0))
  {
    hide Flat, Parse, Protect, TabsToSpaces, Inert, Clean;
    var t := TabsToSpaces(text, width, 0);
    ProtectOnAtoms(t);
    ProtectedIsClean(t);
    CleanIsInert(Protected(t));
    ParseAtoms(Protected(t), ' ');
    ReadsBack(t);
  }

  lemma ReadsBack(t: string)
    ensures Nodes(Protected(t), ' ') == Glyphs(t)
  {
    hide AtomOf;
    forall i: nat | i < |t|
      ensures Nodes(Protected(t), ' ')[i] == Glyph(t[i])
    {
      AtomReads(t[i], ' ');
    }
  }

  // ----- Line tags -----

  const CR: Atom := Raw('\r')
  const LF: Atom := Raw('\n')

  /** The characters of a text without line breaks. */
  function Chars(atoms: seq<Atom>): (t: string)
    requires forall a :: a in atoms ==> !a.Br?
    ensures |t| == |atoms| && forall i :: 0 <= i < |atoms| ==> t[i] == NodeOf(atoms[i], NO_BREAK_SPACE).c
  {
    seq(|atoms|, i requires 0 <= i < |atoms| => NodeOf(atoms[i], NO_BREAK_SPACE).c)
  }

  lemma {:induction false} UnifiedIsClean(atoms: seq<Atom>)
    requires Clean(atoms)
    ensures Clean(Unified(atoms, CR, LF))
    decreases |atoms|
  {
    if atoms == [] {
    } else if |atoms| > 1 && atoms[0] == CR && atoms[1] == LF {
      UnifiedIsClean(atoms[2..]);
    } else {
      UnifiedIsClean(atoms[1..]);
    }
  }

  lemma NewlineAtoms(a: Atom)
    requires !a.Br? && (a.Raw? ==> !Special(a.c))
    ensures NodeOf(a, NO_BREAK_SPACE).c == '\r' <==> a == CR
    ensures NodeOf(a, NO_BREAK_SPACE).c == '\n' <==> a == LF
  {
  }

  lemma CharsTail(atoms: seq<Atom>, n: nat)
    requires Clean(atoms) && n <= |atoms|
    ensures Clean(atoms[n..]) && Chars(atoms)[n..] == Chars(atoms[n..])
  {
    hide NodeOf, Special;
  }

  lemma CharsCons(a: Atom, atoms: seq<Atom>)
    requires !a.Br? && forall b :: b in atoms ==> !b.Br?
    ensures Chars([a] + atoms) == [NodeOf(a, NO_BREAK_SPACE).c] + Chars(atoms)
  {
    hide NodeOf;
  }

  lemma {:induction false} UnifiedChars(atoms: seq<Atom>)
    requires Clean(atoms) && Clean(Unified(atoms, CR, LF))
    ensures Chars(Unified(atoms, CR, LF)) == Unified(Chars(atoms), '\r', '\n')
    decreases |atoms|
  {
    if atoms != [] {
      NewlineAtoms(atoms[0]);
      NewlineAtoms(LF);
      if |atoms| > 1 {
        NewlineAtoms(atoms[1]);
      }
      hide NodeOf, Special;
      if |atoms| > 1 && atoms[0] == CR && atoms[1] == LF {
        CharsTail(atoms, 2);
        UnifiedIsClean(atoms[2..]);
        UnifiedChars(atoms[2..]);
        CharsCons(LF, Unified(atoms[2..], CR, LF));
      } else {
        CharsTail(atoms, 1);
        UnifiedIsClean(atoms[1..]);
        UnifiedChars(atoms[1..]);
        CharsCons(if atoms[0] == CR then LF else atoms[0], Unified(atoms[1..], CR, LF));
      }
    }
  }

  /** Every line but the first starts with the `\n` written after `<br />`. */
  function Indented(lines: seq<string>): (r: seq<string>)
    requires |lines| > 0
    ensures |r| == |lines| && r[0] == lines[0]
    ensures forall i :: 0 < i < |lines| ==> r[i] == "\n" + lines[i]
  {
    seq(|lines|, i requires 0 <= i < |lines| => if i == 0 then lines[0] else "\n" + lines[i])
  }

  lemma SegmentsPeel(node: Node, rest: seq<Node>)
    ensures Segments([node] + rest) ==
      if node.Break? then [""] + Segments(rest) else [[node.c] + Segments(rest)[0]] + Segments(rest)[1..]
  {
    assert ([node] + rest)[1..] == rest;
  }

  /** What inserting a break before each newline does to the lines. */
  predicate BrokenAtNewlines(atoms: seq<Atom>)
    requires Clean(atoms)
  {
    var broken := Replace(atoms, [LF], [Br, LF]);
    Readable(broken) && Segments(Nodes(broken, NO_BREAK_SPACE)) == Indented(Split(Chars(atoms), '\n'))
  }

  lemma NodesOfBreak(rest: seq<Atom>)
    ensures Nodes([Br, LF] + rest, NO_BREAK_SPACE) == [Break] + ([Glyph('\n')] + Nodes(rest, NO_BREAK_SPACE))
  {
  }

  lemma ReadableCons(a: Atom, atoms: seq<Atom>)
    requires Readable(atoms) && (a.Raw? ==> !Special(a.c))
    ensures Readable([a] + atoms)
  {
  }

  lemma CharsOfNewline(rest: seq<Atom>)
    requires Clean([LF] + rest) && Clean(rest)
    ensures Chars([LF] + rest) == ['\n'] + Chars(rest)
    ensures !Special('\n')
  {
  }

  lemma ReadableBreak(atoms: seq<Atom>)
    requires Readable(atoms) && !Special('\n')
    ensures Readable([Br, LF] + atoms)
  {
    hide Special, Readable;
    ReadableCons(LF, atoms);
    ReadableCons(Br, [LF] + atoms);
    assert [Br] + ([LF] + atoms) == [Br, LF] + atoms;
  }

  lemma BreakBeforeNewline(a: Atom, rest: seq<Atom>)
    requires a == LF && Clean([a] + rest) && Clean(rest) && BrokenAtNewlines(rest)
    ensures BrokenAtNewlines([a] + rest)
  {
    var broken := Replace(rest, [LF], [Br, LF]);
    var tail := Nodes(broken, NO_BREAK_SPACE);
    ReplaceOne(a, rest, LF, [Br, LF]);
    CharsOfNewline(rest);
    hide Replace, Split, Segments, Nodes, Chars, Indented, Special, NodeOf, Readable, Clean;
    ReadableBreak(broken);
    SplitPeels('\n', Chars(rest), '\n');
    NodesOfBreak(broken);
    SegmentsPeel(Glyph('\n'), tail);
    SegmentsPeel(Break, [Glyph('\n')] + tail);
    IndentedAfterBreak(Split(Chars(rest), '\n'));
  }

  lemma NodesOfGlyph(a: Atom, rest: seq<Atom>, c: char)
    requires NodeOf(a, NO_BREAK_SPACE) == Glyph(c)
    ensures Nodes([a] + rest, NO_BREAK_SPACE) == [Glyph(c)] + Nodes(rest, NO_BREAK_SPACE)
  {
    hide NodeOf;
  }

  lemma IndentedFirst(c: char, lines: seq<string>)
    requires |lines| > 0
    ensures Indented([[c] + lines[0]] + lines[1..]) == [[c] + Indented(lines)[0]] + Indented(lines)[1..]
  {
  }

  lemma CharsPeel(a: Atom, rest: seq<Atom>)
    requires Clean([a] + rest) && Clean(rest)
    ensures !a.Br? && (a.Raw? ==> !Special(a.c))
    ensures Chars([a] + rest) == [NodeOf(a, NO_BREAK_SPACE).c] + Chars(rest)
  {
    assert ([a] + rest)[0] == a;
    assert a in [a] + rest;
    hide NodeOf, Special;
  }

  lemma NoBreakBefore(a: Atom, rest: seq<Atom>)
    requires a != LF && Clean([a] + rest) && Clean(rest) && BrokenAtNewlines(rest)
    ensures BrokenAtNewlines([a] + rest)
  {
    var broken := Replace(rest, [LF], [Br, LF]);
    CharsPeel(a, rest);
    GlyphOfAtom(a);
    NewlineAtoms(a);
    ReplaceOne(a, rest, LF, [Br, LF]);
    hide Replace, Split, Segments, Nodes, Chars, Indented, Special, NodeOf, Readable, Clean;
    var c := NodeOf(a, NO_BREAK_SPACE).c;
    ReadableCons(a, broken);
    SplitPeels(c, Chars(rest), '\n');
    NodesOfGlyph(a, broken, c);
    SegmentsPeel(Glyph(c), Nodes(broken, NO_BREAK_SPACE));
    IndentedFirst(c, Split(Chars(rest), '\n'));
  }

  lemma GlyphOfAtom(a: Atom)
    requires !a.Br?
    ensures NodeOf(a, NO_BREAK_SPACE).Glyph?
  {
  }

  lemma {:induction false} BreaksAtNewlines(atoms: seq<Atom>)
    requires Clean(atoms)
    ensures BrokenAtNewlines(atoms)
  {
    if atoms != [] {
      hide BrokenAtNewlines;
      BreaksAtNewlines(atoms[1..]);
      assert atoms == [atoms[0]] + atoms[1..];
      if atoms[0] == LF {
        BreakBeforeNewline(atoms[0], atoms[1..]);
      } else {
        NoBreakBefore(atoms[0], atoms[1..]);
      }
    }
  }

  lemma IndentedAfterBreak(lines: seq<string>)
    requires |lines| > 0
    ensures Indented([""] + lines) == [""] + ([['\n'] + Indented(lines)[0]] + Indented(lines)[1..])
  {
  }

  lemma NewlineConstants()
    ensures Raws("\r\n") == [CR, LF] && Raws("\r") == [CR] && Raws("\n") == [LF]
    ensures Flat([LF]) == "\n" && Flat([Br, LF]) == "<br />\n"
  {
    OneAtom(LF);
    FlatOfConcat([Br], [LF]);
    OneAtom(Br);
    assert [Br] + [LF] == [Br, LF];
  }

  lemma BreakLinesOnAtoms(atoms: seq<Atom>)
    requires Clean(atoms)
    ensures BreakLines(Flat(atoms)) == Flat(Replace(Unified(atoms, CR, LF), [LF], [Br, LF]))
  {
    var u := Replace(atoms, [CR, LF], [LF]);
    var v := Replace(u, [CR], [LF]);
    NewlineConstants();
    ReplaceOnAtoms(atoms, "\r\n", [LF]);
    ReplacedIsClean(atoms, [CR, LF], [LF]);
    ReplaceOnAtoms(u, "\r", [LF]);
    ReplacedIsClean(u, [CR], [LF]);
    ReplaceOnAtoms(v, "\n", [Br, LF]);
    UnifiedByReplacing(atoms, CR, LF);
  }

  lemma {:induction false} ReplacedIsClean(atoms: seq<Atom>, pat: seq<Atom>, sub: seq<Atom>)
    requires Clean(atoms) && Clean(sub) && pat != []
    ensures Clean(Replace(atoms, pat, sub))
    decreases |atoms|
  {
    if atoms == [] {
    } else if pat <= atoms {
      ReplacedIsClean(atoms[|pat|..], pat, sub);
    } else {
      ReplacedIsClean(atoms[1..], pat, sub);
    }
  }

  lemma DisplayIgnoresIndent(t: string)
    ensures Display("\n" + t) == Display(t)
  {
    assert ("\n" + t)[1..] == t;
    assert "" + Collapse(t, true) == Collapse(t, true);
  }

  /** The text that reaches the browser's line boxes when only steps 2 to 5 ran. */
  function Decoded(t: string): (d: string)
    ensures |d| == |t|
    ensures forall i :: 0 <= i < |t| ==> d[i] == if Hardened(t, i) then NO_BREAK_SPACE else t[i]
  {
    seq(|t|, i requires 0 <= i < |t| => if Hardened(t, i) then NO_BREAK_SPACE else t[i])
  }

  lemma ProtectedChars(t: string)
    ensures Chars(Protected(t)) == Decoded(t)
  {
  }

  /** With line tags, the browser shows the lines of the protected text. */
  lemma RenderedLines(t: string)
    ensures RenderLines(BreakLines(Protect(t))) == DisplayAll(Lines(Decoded(t)))
  {
    ProtectOnAtoms(t);
    ProtectedIsClean(t);
    ProtectedChars(t);
    var atoms := Protected(t);
    var u := Unified(atoms, CR, LF);
    BreakLinesOnAtoms(atoms);
    UnifiedIsClean(atoms);
    UnifiedChars(atoms);
    BreaksAtNewlines(u);
    ParseAtoms(Replace(u, [LF], [Br, LF]), NO_BREAK_SPACE);
    UnifiedLines(Decoded(t));
    var lines := Lines(Decoded(t));
    assert RenderLines(BreakLines(Protect(t))) == DisplayAll(Indented(lines));
    forall i | 0 <= i < |lines|
      ensures DisplayAll(Indented(lines))[i] == Display(lines[i])
    {
      DisplayIgnoresIndent(lines[i]);
    }
  }

  lemma {:induction false} ShownBreak(t: string)
    ensures BreakAt(Shown(t)) == BreakAt(t)
  {
    if t != "" && !IsNewline(t[0]) {
      ShownBreak(t[1..]);
      assert Shown(t)[1..] == Shown(t[1..]);
    }
  }

  lemma ShownPrefix(t: string, k: nat)
    requires k <= |t|
    ensures Shown(t)[..k] == Shown(t[..k])
  {
  }

  lemma ShownSuffix(t: string, k: nat)
    requires k <= |t|
    ensures Shown(t)[k..] == Shown(t[k..])
  {
  }

  lemma ShownBreakLength(t: string, k: nat)
    requires k < |t|
    ensures BreakLength(Shown(t), k) == BreakLength(t, k)
  {
  }

  lemma ShownFirst(t: string)
    requires BreakAt(Shown(t)) == BreakAt(t)
    ensures FirstLine(Shown(t)) == Shown(FirstLine(t))
  {
    hide BreakAt, Shown;
    ShownPrefix(t, BreakAt(t));
  }

  lemma ShownRest(t: string)
    requires BreakAt(t) < |t| && BreakAt(Shown(t)) == BreakAt(t)
    ensures AfterBreak(Shown(t)) == Shown(AfterBreak(t))
  {
    hide BreakAt, BreakLength, Shown;
    ShownBreakLength(t, BreakAt(t));
    ShownSuffix(t, BreakAt(t) + BreakLength(t, BreakAt(t)));
  }

  lemma ShownParts(t: string)
    requires BreakAt(t) < |t| && BreakAt(Shown(t)) == BreakAt(t)
    ensures FirstLine(Shown(t)) == Shown(FirstLine(t)) && AfterBreak(Shown(t)) == Shown(AfterBreak(t))
  {
    hide *;
    ShownFirst(t);
    ShownRest(t);
  }

  lemma ShownAllPeels(first: string, rest: seq<string>)
    ensures ShownAll([first] + rest) == [Shown(first)] + ShownAll(rest)
  {
  }

  lemma {:induction false} ShownLines(t: string)
    ensures Lines(Shown(t)) == ShownAll(Lines(t))
    decreases |t|
  {
    ShownBreak(t);
    hide BreakAt, FirstLine, AfterBreak;
    if BreakAt(t) == |t| {
      assert Lines(t) == [t] && Lines(Shown(t)) == [Shown(t)];
    } else {
      ShownParts(t);
      ShownLines(AfterBreak(t));
      ShownAllPeels(FirstLine(t), Lines(AfterBreak(t)));
    }
  }

  /** Tidy line by line, said of positions in the whole text. */
  predicate TidyLines(t: string) {
    forall i: nat :: i < |t| && !IsNewline(t[i]) ==> TidyAt(t, i)
  }

  predicate AllTidy(lines: seq<string>) {
    forall l :: l in lines ==> Tidy(l)
  }

  lemma AllTidyCons(first: string, rest: seq<string>)
    ensures AllTidy([first] + rest) <==> Tidy(first) && AllTidy(rest)
  {
    assert forall l :: l in [first] + rest <==> l == first || l in rest;
  }

  lemma {:induction false} TidyByLines(t: string)
    ensures TidyLines(t) <==> AllTidy(Lines(t))
    decreases |t|
  {
    hide BreakAt, FirstLine, AfterBreak, TidyLines, AllTidy, Tidy;
    if BreakAt(t) == |t| {
      OneLine(t);
    } else {
      TidyByLines(AfterBreak(t));
      AllTidyCons(FirstLine(t), Lines(AfterBreak(t)));
      TidyTwoParts(t, FirstLine(t), AfterBreak(t));
    }
  }

  lemma TidyTwoParts(t: string, first: string, rest: string)
    requires BreakAt(t) < |t| && first == FirstLine(t) && rest == AfterBreak(t)
    ensures TidyLines(t) <==> Tidy(first) && TidyLines(rest)
  {
    if TidyLines(t) {
      TidyFirst(t, first, rest);
    }
    if Tidy(first) && TidyLines(rest) {
      forall i: nat | i < |t| && !IsNewline(t[i])
        ensures TidyAt(t, i)
      {
        TidyWhole(t, first, rest, i);
      }
    }
  }

  lemma OneLine(t: string)
    requires BreakAt(t) == |t|
    ensures TidyLines(t) <==> AllTidy(Lines(t))
  {
    assert Lines(t) == [t];
    assert forall i: nat :: i < |t| ==> !IsNewline(t[i]);
    if TidyLines(t) {
      assert Tidy(t);
    }
    if AllTidy(Lines(t)) {
      assert t in Lines(t);
    }
  }

  lemma LastOfBreak(t: string)
    requires BreakAt(t) < |t|
    ensures IsNewline(t[BreakAt(t) + BreakLength(t, BreakAt(t)) - 1])
  {
  }

  lemma TidyFirst(t: string, first: string, rest: string)
    requires BreakAt(t) < |t| && first == FirstLine(t) && rest == AfterBreak(t)
    requires TidyLines(t)
    ensures Tidy(first) && TidyLines(rest)
  {
    hide TidyAt, TidyLines;
    forall i: nat | i < |first|
      ensures TidyAt(first, i)
    {
      TidyFirstAt(t, i);
    }
    forall i: nat | i < |rest| && !IsNewline(rest[i])
      ensures TidyAt(rest, i)
    {
      TidyRestAt(t, i);
    }
    assert TidyLines(rest) by {
      TidyLinesIs(rest);
    }
  }

  lemma TidyLinesIs(t: string)
    ensures TidyLines(t) <==> forall i: nat :: i < |t| && !IsNewline(t[i]) ==> TidyAt(t, i)
  {
    hide TidyAt;
  }

  lemma TidyFirstAt(t: string, i: nat)
    requires BreakAt(t) < |t| && TidyLines(t) && i < BreakAt(t)
    ensures TidyAt(FirstLine(t), i)
  {
    hide BreakAt;
    var first := FirstLine(t);
    assert TidyAt(t, i);
    assert first[i] == t[i] && (i > 0 ==> first[i - 1] == t[i - 1]);
    assert if i + 1 < |first| then first[i + 1] == t[i + 1] else Collapsible(t[i + 1]);
  }

  lemma TidyRestAt(t: string, i: nat)
    requires BreakAt(t) < |t| && TidyLines(t) && i < |AfterBreak(t)| && !IsNewline(AfterBreak(t)[i])
    ensures TidyAt(AfterBreak(t), i)
  {
    LastOfBreak(t);
    hide BreakAt, BreakLength;
    var rest, m := AfterBreak(t), BreakAt(t) + BreakLength(t, BreakAt(t));
    assert rest[i] == t[m + i] && TidyAt(t, m + i);
    assert if i > 0 then rest[i - 1] == t[m + i - 1] else Collapsible(t[m + i - 1]);
    assert i + 1 < |rest| ==> rest[i + 1] == t[m + i + 1];
  }

  /** Between a line and the next there are only newline characters. */
  lemma BreakSpan(t: string, i: nat)
    requires BreakAt(t) <= i < |t| && !IsNewline(t[i])
    ensures i >= BreakAt(t) + BreakLength(t, BreakAt(t))
  {
    hide BreakAt;
  }

  lemma TidyWhole(t: string, first: string, rest: string, i: nat)
    requires BreakAt(t) < |t| && first == FirstLine(t) && rest == AfterBreak(t)
    requires Tidy(first) && TidyLines(rest)
    requires i < |t| && !IsNewline(t[i])
    ensures TidyAt(t, i)
  {
    hide BreakAt, BreakLength;
    var k := BreakAt(t);
    var m := k + BreakLength(t, k);
    if i < k {
      assert TidyAt(first, i);
      assert t[i] == first[i] && (i > 0 ==> t[i - 1] == first[i - 1]);
      assert i + 1 < k ==> t[i + 1] == first[i + 1];
    } else {
      BreakSpan(t, i);
      var j := i - m;
      assert t[i] == rest[j];
      assert TidyAt(rest, j);
      assert j > 0 ==> t[i - 1] == rest[j - 1];
      assert j + 1 < |rest| ==> t[i + 1] == rest[j + 1];
    }
  }

  const FORM_FEED: char := '\U{0C}'

  /**
   What a caller can check of a tab-free text to know its lines are kept: no form feed;
   a space after a lone CR only when the line ends right after it; and at the very end
   only a space that some step reaches, namely the second of a pair or the first of a line.
  */
  predicate LinesAreKept(t: string) {
    forall i: nat :: i < |t| ==> KeptAt(t, i)
  }

  predicate KeptAt(t: string, i: nat)
    requires i < |t|
  {
    && t[i] != FORM_FEED
    && (t[i] == ' ' && i > 0 && t[i - 1] == '\r' ==> i + 1 < |t| && IsNewline(t[i + 1]))
    && (t[i] == ' ' && i == |t| - 1 ==> i == 0 || t[i - 1] == '\n' || SpacesBefore(t, i) % 2 == 1)
  }

  /** Next to a space that no step reached there is no other space that a browser would collapse. */
  lemma NoSoftNeighbour(t: string, i: nat)
    requires i < |t| && t[i] == ' ' && !Hardened(t, i)
    ensures i > 0 && t[i - 1] == ' ' ==> Hardened(t, i - 1)
    ensures i + 1 < |t| && t[i + 1] == ' ' ==> Hardened(t, i + 1)
  {
    if i > 0 && t[i - 1] == ' ' {
      assert SpacesBefore(t, i) == 1 + SpacesBefore(t, i - 1);
    }
    if i + 1 < |t| && t[i + 1] == ' ' {
      assert SpacesBefore(t, i + 1) == 1 + SpacesBefore(t, i);
    }
  }

  lemma KeptTidyAt(t: string, i: nat)
    requires '\t' !in t && LinesAreKept(t)
    requires i < |t| && !IsNewline(t[i])
    ensures TidyAt(Decoded(t), i)
  {
    assert KeptAt(t, i) && t[i] in t;
    if t[i] == ' ' && !Hardened(t, i) {
      NoSoftNeighbour(t, i);
      assert KeptAt(t, i - 1) && t[i - 1] in t;
      assert i + 1 < |t| && KeptAt(t, i + 1) && t[i + 1] in t;
    }
  }

  lemma TidyKeptAt(t: string, i: nat)
    requires TidyLines(Decoded(t)) && i < |t|
    ensures KeptAt(t, i)
  {
    if !IsNewline(t[i]) {
      assert TidyAt(Decoded(t), i);
    }
  }

  lemma KeptIffTidy(t: string)
    requires '\t' !in t
    ensures LinesAreKept(t) <==> TidyLines(Decoded(t))
  {
    if LinesAreKept(t) {
      forall i: nat | i < |t| && !IsNewline(t[i])
        ensures TidyAt(Decoded(t), i)
      {
        KeptTidyAt(t, i);
      }
    }
    if TidyLines(Decoded(t)) {
      forall i: nat | i < |t|
        ensures KeptAt(t, i)
      {
        TidyKeptAt(t, i);
      }
    }
  }

  lemma DecodedShows(t: string)
    ensures Shown(Decoded(t)) == Shown(t)
  {
  }

  lemma AllTidyLines(lines: seq<string>)
    ensures DisplayAll(lines) == ShownAll(lines) <==> AllTidy(lines)
  {
    forall i | 0 <= i < |lines|
      ensures DisplayAll(lines)[i] == ShownAll(lines)[i] <==> Tidy(lines[i])
    {
      DisplayKeeps(lines[i]);
    }
  }

  /** The lines a reader of the tab-expanded text sees. */
  function EditorLines(text: string, width: nat): seq<string>
    requires width > 0
  {
    ShownAll(Lines(TabsToSpaces(text, width, 0)))
  }

  /**
   With line tags the browser shows exactly the editor's lines, if and only if the
   expanded text passes `LinesAreKept`.
  */
  lemma LinesDisplayIdentically(text: string, width: nat)
    requires width > 0
    ensures RenderLines(EscapeText(text, true, width)) == EditorLines(text, width)
       <==> LinesAreKept(TabsToSpaces(text, width, 0))
  {
    var t := TabsToSpaces(text, width, 0);
    var lines := Lines(Decoded(t));
    NoTabs(text, width, 0);
    RenderedLines(t);
    DecodedShows(t);
    ShownLines(t);
    ShownLines(Decoded(t));
    AllTidyLines(lines);
    TidyByLines(Decoded(t));
    KeptIffTidy(t);
  }

  lemma {:induction false} NothingToExpand(text: string, width: nat, cursor: nat)
    requires width > 0 && '\t' !in text
    ensures TabsToSpaces(text, width, cursor) == text
  {
    if text != "" {
      NothingToExpand(text[1..], width, if IsNewline(text[0]) then 0 else cursor + 1);
    }
  }

  /** A lone space after a word is lost at the end of a text: the limit `plaintext_html` exists to lift. */
  lemma FinalSpaceIsLost(word: string, width: nat)
    requires width > 0 && word != ""
    requires forall c :: c in word ==> !Collapsible(c)
    ensures RenderLines(EscapeText(word + " ", true, width)) != EditorLines(word + " ", width)
  {
    var t := word + " ";
    var i := |word|;
    NothingToExpand(t, width, 0);
    assert t[i] == ' ' && t[i - 1] == word[i - 1] && t[i - 1] in word;
    assert SpacesBefore(t, i) == 0;
    assert !KeptAt(t, i);
    LinesDisplayIdentically(t, width);
  }

  // ----- A table cell -----

  /** The characters of `PlaintextHtml`'s output. */
  function CellText(t: string): (d: string)
    ensures |d| == |t|
    ensures forall i :: 0 <= i < |t| ==>
      d[i] == if t[i] == ' ' && (Hardened(t, i) || i == |t| - 1) then NO_BREAK_SPACE else t[i]
  {
    seq(|t|, i requires 0 <= i < |t| =>
      if t[i] == ' ' && (Hardened(t, i) || i == |t| - 1) then NO_BREAK_SPACE else t[i])
  }

  lemma ProtectEndOnAtoms(atoms: seq<Atom>)
    requires Clean(atoms)
    ensures ProtectEnd(Flat(atoms))
         == Flat(if atoms != [] && atoms[|atoms| - 1] == Raw(' ') then atoms[..|atoms| - 1] + [Nbsp] else atoms)
  {
    EndsWithChar(Flat(atoms), ' ');
    if atoms != [] {
      var front, last := atoms[..|atoms| - 1], atoms[|atoms| - 1];
      assert atoms == front + [last];
      FlatOfConcat(front, [last]);
      OneAtom(last);
      assert Flat(atoms)[|Flat(atoms)| - 1] == Source(last)[|Source(last)| - 1];
      if last == Raw(' ') {
        assert Flat(atoms)[..|Flat(atoms)| - 1] == Flat(front);
        FlatOfConcat(front, [Nbsp]);
        OneAtom(Nbsp);
      } else {
        LastOfSource(last);
      }
    }
  }

  lemma LastOfSource(a: Atom)
    requires a != Raw(' ')
    ensures Source(a)[|Source(a)| - 1] != ' '
  {
  }

  lemma {:induction false} NoBreaks(nodes: seq<Node>, t: string)
    requires nodes == Glyphs(t)
    ensures Segments(nodes) == [t]
  {
    if t != "" {
      assert nodes[1..] == Glyphs(t[1..]);
      NoBreaks(nodes[1..], t[1..]);
      assert [t[0]] + t[1..] == t;
    }
  }

  lemma CellNodes(t: string, ended: seq<Atom>, i: nat)
    requires |ended| == |t| && i < |t|
    requires ended[i] == if i == |t| - 1 && Protected(t)[i] == Raw(' ') then Nbsp else Protected(t)[i]
    ensures NodeOf(ended[i], NO_BREAK_SPACE) == Glyph(CellText(t)[i])
  {
    AtomReads(t[i], NO_BREAK_SPACE);
    BlankAtom(t[i], ' ');
  }

  lemma CellSegments(t: string)
    ensures RenderLines(ProtectEnd(Protect(t))) == [Display(CellText(t))]
  {
    hide Flat, Parse, Protect, ProtectEnd, Segments, Display, AtomOf;
    var atoms := Protected(t);
    ProtectOnAtoms(t);
    ProtectedIsClean(t);
    ProtectEndOnAtoms(atoms);
    var ended := if atoms != [] && atoms[|atoms| - 1] == Raw(' ') then atoms[..|atoms| - 1] + [Nbsp] else atoms;
    forall a | a in ended
      ensures a.Raw? ==> !Special(a.c)
    {
    }
    ParseAtoms(ended, NO_BREAK_SPACE);
    forall i: nat | i < |t|
      ensures Nodes(ended, NO_BREAK_SPACE)[i] == Glyph(CellText(t)[i])
    {
      CellNodes(t, ended, i);
    }
    assert Nodes(ended, NO_BREAK_SPACE) == Glyphs(CellText(t));
    NoBreaks(Glyphs(CellText(t)), CellText(t));
  }

  lemma CellIsTidy(t: string)
    requires '\t' !in t
    ensures Tidy(CellText(t)) <==> '\n' !in t && '\r' !in t && FORM_FEED !in t
  {
    var d := CellText(t);
    if '\n' !in t && '\r' !in t && FORM_FEED !in t {
      forall i: nat | i < |d|
        ensures TidyAt(d, i)
      {
        assert t[i] in t;
        if t[i] == ' ' && !Hardened(t, i) && i < |t| - 1 {
          NoSoftNeighbour(t, i);
          assert t[i - 1] in t && t[i + 1] in t;
        }
      }
    }
    if Tidy(d) {
      forall i: nat | i < |t|
        ensures t[i] != '\n' && t[i] != '\r' && t[i] != FORM_FEED
      {
        assert TidyAt(d, i);
      }
    }
  }

  lemma CellShows(t: string)
    ensures Shown(CellText(t)) == Shown(t)
  {
  }

  /**
   A table cell shows the tab-expanded plaintext column for column, no-break spaces
   looking like spaces, if and only if the plaintext holds no line ending or form feed.
  */
  lemma PlaintextDisplaysIdentically(plaintext: string)
    ensures RenderLines(PlaintextHtml(plaintext)) == [Shown(TabsToSpaces(plaintext, CELL_TAB_WIDTH, 0))]
       <==> '\n' !in plaintext && '\r' !in plaintext && FORM_FEED !in plaintext
  {
    var t := TabsToSpaces(plaintext, CELL_TAB_WIDTH, 0);
    NoTabs(plaintext, CELL_TAB_WIDTH, 0);
    ExpansionKeeps(plaintext, CELL_TAB_WIDTH, 0, '\n');
    ExpansionKeeps(plaintext, CELL_TAB_WIDTH, 0, '\r');
    ExpansionKeeps(plaintext, CELL_TAB_WIDTH, 0, FORM_FEED);
    CellSegments(t);
    CellIsTidy(t);
    DisplayKeeps(CellText(t));
    CellShows(t);
    hide TabsToSpaces, CellText, Shown, Display, Tidy, RenderLines, PlaintextHtml;
    var shown := RenderLines(PlaintextHtml(plaintext));
    assert shown == [Display(CellText(t))];
    assert shown == [Shown(t)] <==> shown[0] == Shown(t);
  }

  lemma NodesAreText(atoms: seq<Atom>, node: Node)
    requires node in Nodes(atoms, NO_BREAK_SPACE)
    ensures !node.Stray? && (node.Break? ==> Br in atoms)
  {
    var i :| 0 <= i < |atoms| && Nodes(atoms, NO_BREAK_SPACE)[i] == node;
    assert node == NodeOf(atoms[i], NO_BREAK_SPACE);
  }

  /** Line tags are the only markup any text can put into the output. */
  lemma OnlyLineTags(text: string, brTags: bool, width: nat, node: Node)
    requires width > 0
    requires node in Parse(EscapeText(text, brTags, width), NO_BREAK_SPACE)
    ensures !node.Stray? && (node.Break? ==> brTags)
  {
    hide Flat, Replace, Unified, Parse, Protect, BreakLines;
    var t := TabsToSpaces(text, width, 0);
    var atoms := Protected(t);
    ProtectOnAtoms(t);
    ProtectedIsClean(t);
    if brTags {
      var u := Unified(atoms, CR, LF);
      BreakLinesOnAtoms(atoms);
      UnifiedIsClean(atoms);
      BreaksAtNewlines(u);
      ParseAtoms(Replace(u, [LF], [Br, LF]), NO_BREAK_SPACE);
      NodesAreText(Replace(u, [LF], [Br, LF]), node);
    } else {
      ParseAtoms(atoms, NO_BREAK_SPACE);
      NodesAreText(atoms, node);
    }
  }
}
