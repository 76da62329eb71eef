/**
 The escaper's intermediate strings seen as lists of atoms: literal characters, and
 references and line breaks that later passes must not cut in two. Each pass on strings
 is shown to be the same pass on atoms.
*/
module HtmlAtoms {
  import opened Text
  import opened HtmlEscape
  import opened HtmlRender

  datatype Atom = Raw(c: char) | Amp | Lt | Gt | Quot | Apos | Nbsp | Br

  function Source(a: Atom): (s: string)
    ensures s != ""
  {
    match a
    case Raw(c) => [c]
    case Amp => "&amp;"
    case Lt => "&lt;"
    case Gt => "&gt;"
    case Quot => "&quot;"
    case Apos => "&#039;"
    case Nbsp => "&nbsp;"
    case Br => "<br />"
  }

  function Flat(atoms: seq<Atom>): string {
    if atoms == [] then "" else Source(atoms[0]) + Flat(atoms[1..])
  }

  predicate Special(c: char) {
    c == '&' || c == '<' || c == '>' || c == '\"' || c == '\''
  }

  function AtomOf(c: char): Atom {
    if c == '&' then Amp
    else if c == '<' then Lt
    else if c == '>' then Gt
    else if c == '\"' then Quot
    else if c == '\'' then Apos
    else Raw(c)
  }

  function Atoms(t: string): (atoms: seq<Atom>)
    ensures |atoms| == |t| && forall i :: 0 <= i < |t| ==> atoms[i] == AtomOf(t[i])
  {
    seq(|t|, i requires 0 <= i < |t| => AtomOf(t[i]))
  }

  /** A pattern of literal characters. */
  function Raws(t: string): (atoms: seq<Atom>)
    ensures |atoms| == |t| && forall i :: 0 <= i < |t| ==> atoms[i] == Raw(t[i])
  {
    seq(|t|, i requires 0 <= i < |t| => Raw(t[i]))
  }

  /** No literal has a meaning in HTML, and no line break has been added yet. */
  predicate Clean(atoms: seq<Atom>) {
    forall a :: a in atoms ==> !a.Br? && (a.Raw? ==> !Special(a.c))
  }

  predicate IsBlank(c: char) {
    c == ' ' || IsNewline(c)
  }

  lemma SourceHasNoBlank(a: Atom, c: char)
    requires !a.Raw? && !a.Br? && IsBlank(c)
    ensures c !in Source(a)
  {
  }

  // ----- Step 2 on atoms -----

  lemma SpecialCharIsAtom(c: char)
    ensures SpecialChar(c) == Source(AtomOf(c))
  {
  }

  lemma {:induction false} SpecialsAreAtoms(t: string)
    ensures HtmlSpecialChars(t) == Flat(Atoms(t))
  {
    if t != "" {
      SpecialsAreAtoms(t[1..]);
      SpecialCharIsAtom(t[0]);
      assert Atoms(t)[1..] == Atoms(t[1..]);
    }
  }

  lemma {:induction false} FlatOfConcat(u: seq<Atom>, v: seq<Atom>)
    ensures Flat(u + v) == Flat(u) + Flat(v)
  {
    hide Source;
    if u == [] {
      assert u + v == v;
    } else {
      FlatOfConcat(u[1..], v);
      assert (u + v)[0] == u[0] && (u + v)[1..] == u[1..] + v;
      Associates(Source(u[0]), Flat(u[1..]), Flat(v));
    }
  }

  lemma {:induction false} FlatOfRaws(t: string)
    ensures Flat(Raws(t)) == t
  {
    if t != "" {
      FlatOfRaws(t[1..]);
      assert Raws(t)[1..] == Raws(t[1..]);
    }
  }

  lemma FlatOfRaw(atoms: seq<Atom>)
    requires atoms != [] && atoms[0].Raw?
    ensures Flat(atoms) == [atoms[0].c] + Flat(atoms[1..])
  {
  }

  lemma FlatPeels(atoms: seq<Atom>)
    requires atoms != []
    ensures Flat(atoms) == Source(atoms[0]) + Flat(atoms[1..])
    ensures Flat(atoms)[|Source(atoms[0])|..] == Flat(atoms[1..])
  {
  }

  // ----- Replacement on atoms -----

  lemma EntityIsNoBlank(atoms: seq<Atom>, c: char)
    requires atoms != [] && !atoms[0].Raw? && !atoms[0].Br? && IsBlank(c)
    ensures Flat(atoms) != "" && Flat(atoms)[0] != c
  {
    FlatPeels(atoms);
    SourceHasNoBlank(atoms[0], c);
  }

  lemma RawsPeel(c: char, rest: string)
    ensures Raws([c] + rest) == [Raw(c)] + Raws(rest)
  {
  }

  /** A blank pattern stands at the front of the text exactly when it does at the front of the atoms. */
  lemma {:induction false} PrefixOfFlat(atoms: seq<Atom>, pat: string)
    requires Clean(atoms)
    requires forall i :: 0 <= i < |pat| ==> IsBlank(pat[i])
    ensures pat <= Flat(atoms) <==> Raws(pat) <= atoms
  {
    if pat != "" && atoms != [] {
      hide Source, Flat, Raws;
      assert pat == [pat[0]] + pat[1..];
      RawsPeel(pat[0], pat[1..]);
      assert atoms == [atoms[0]] + atoms[1..];
      if atoms[0].Raw? {
        PrefixOfFlat(atoms[1..], pat[1..]);
        FlatOfRaw(atoms);
        FirstThenRest(pat[0], pat[1..], atoms[0].c, Flat(atoms[1..]));
        FirstThenRest(Raw(pat[0]), Raws(pat[1..]), atoms[0], atoms[1..]);
      } else {
        EntityIsNoBlank(atoms, pat[0]);
      }
    }
  }

  lemma FirstThenRest<T>(x: T, u: seq<T>, y: T, v: seq<T>)
    ensures [x] + u <= [y] + v <==> x == y && u <= v
  {
    assert ([x] + u)[0] == x && ([y] + v)[0] == y;
    assert ([x] + u)[1..] == u && ([y] + v)[1..] == v;
    if |u| <= |v| {
      assert ([y] + v)[..1 + |u|] == [y] + v[..|u|];
    }
  }

  /** Replacing a blank pattern in the text is replacing it in the atoms. */
  lemma {:induction false} ReplaceOnAtoms(atoms: seq<Atom>, pat: string, sub: seq<Atom>)
    requires Clean(atoms)
    requires pat != "" && forall i :: 0 <= i < |pat| ==> IsBlank(pat[i])
    ensures Replace(Flat(atoms), pat, Flat(sub)) == Flat(Replace(atoms, Raws(pat), sub))
    decreases |atoms|
  {
    hide Source;
    PrefixOfFlat(atoms, pat);
    if atoms == [] {
    } else if Raws(pat) <= atoms {
      var rest := atoms[|pat|..];
      ReplaceOnAtoms(rest, pat, sub);
      assert atoms == Raws(pat) + rest;
      FlatOfConcat(Raws(pat), rest);
      FlatOfRaws(pat);
      assert Flat(atoms)[|pat|..] == Flat(rest);
      FlatOfConcat(sub, Replace(rest, Raws(pat), sub));
    } else {
      var head, rest := Source(atoms[0]), Flat(atoms[1..]);
      ReplaceOnAtoms(atoms[1..], pat, sub);
      if atoms[0].Raw? {
        FlatOfRaw(atoms);
        FlatPeels(atoms);
      } else {
        SourceHasNoBlank(atoms[0], pat[0]);
        ReplaceSkips(head, rest, pat, Flat(sub));
      }
      var tail := Replace(atoms[1..], Raws(pat), sub);
      assert ([atoms[0]] + tail)[1..] == tail;
    }
  }

  // ----- Step 4 on atoms -----

  function HardenAtoms(atoms: seq<Atom>, atLineStart: bool): (r: seq<Atom>)
    ensures |r| == |atoms|
  {
    if atoms == [] then []
    else
      [if atLineStart && atoms[0] == Raw(' ') then Nbsp else atoms[0]]
      + HardenAtoms(atoms[1..], atoms[0] == Raw('\n'))
  }

  lemma {:induction false} HardenAtomsAt(atoms: seq<Atom>, atLineStart: bool, i: nat)
    requires i < |atoms|
    ensures HardenAtoms(atoms, atLineStart)[i]
         == if atoms[i] == Raw(' ') && (if i == 0 then atLineStart else atoms[i - 1] == Raw('\n'))
            then Nbsp else atoms[i]
  {
    if i > 0 {
      HardenAtomsAt(atoms[1..], atoms[0] == Raw('\n'), i - 1);
    }
  }

  lemma {:induction false} LeadingSpacesSkip(u: string, rest: string, atLineStart: bool)
    requires u != "" && ' ' !in u && '\n' !in u
    ensures ReplaceLeadingSpaces(u + rest, atLineStart) == u + ReplaceLeadingSpaces(rest, false)
  {
    assert (u + rest)[1..] == u[1..] + rest;
    if |u| > 1 {
      LeadingSpacesSkip(u[1..], rest, false);
    } else {
      assert u[1..] + rest == rest;
    }
  }

  lemma {:induction false} LeadingSpacesOnAtoms(atoms: seq<Atom>, atLineStart: bool)
    requires Clean(atoms)
    ensures ReplaceLeadingSpaces(Flat(atoms), atLineStart) == Flat(HardenAtoms(atoms, atLineStart))
  {
    if atoms != [] {
      var rest := Flat(atoms[1..]);
      LeadingSpacesOnAtoms(atoms[1..], atoms[0] == Raw('\n'));
      if atoms[0].Raw? {
        assert Flat(atoms)[1..] == rest;
      } else {
        SourceHasNoBlank(atoms[0], ' ');
        SourceHasNoBlank(atoms[0], '\n');
        LeadingSpacesSkip(Source(atoms[0]), rest, atLineStart);
      }
      assert HardenAtoms(atoms, atLineStart)[1..] == HardenAtoms(atoms[1..], atoms[0] == Raw('\n'));
    }
  }

  // ----- Reading atoms back -----

  function NodeOf(a: Atom, nbsp: char): Node {
    match a
    case Raw(c) => Glyph(c)
    case Amp => Glyph('&')
    case Lt => Glyph('<')
    case Gt => Glyph('>')
    case Quot => Glyph('\"')
    case Apos => Glyph('\'')
    case Nbsp => Glyph(nbsp)
    case Br => Break
  }

  function Nodes(atoms: seq<Atom>, nbsp: char): (nodes: seq<Node>)
    ensures |nodes| == |atoms| && forall i :: 0 <= i < |atoms| ==> nodes[i] == NodeOf(atoms[i], nbsp)
  {
    seq(|atoms|, i requires 0 <= i < |atoms| => NodeOf(atoms[i], nbsp))
  }

  /** Escaping a character and reading it back gives the character. */
  lemma AtomReads(c: char, nbsp: char)
    ensures NodeOf(AtomOf(c), nbsp) == Glyph(c)
  {
  }

  /** Literals that the tokenizer reads as themselves. */
  predicate Readable(atoms: seq<Atom>) {
    forall a :: a in atoms && a.Raw? ==> !Special(a.c)
  }

  lemma ReadEntity(a: Atom, rest: string, nbsp: char)
    requires !a.Raw? && !a.Br?
    ensures Source(a)[0] == '&'
    ensures Reference(Source(a) + rest, nbsp) == Some((NodeOf(a, nbsp).c, |Source(a)|))
  {
    var html := Source(a) + rest;
    assert Source(a) <= html;
    assert html[1] == Source(a)[1] && html[2] == Source(a)[2];
  }

  lemma {:induction false} ParseAtoms(atoms: seq<Atom>, nbsp: char)
    requires Readable(atoms)
    ensures Parse(Flat(atoms), nbsp) == Nodes(atoms, nbsp)
  {
    hide Reference;
    if atoms != [] {
      var a, rest := atoms[0], Flat(atoms[1..]);
      ParseAtoms(atoms[1..], nbsp);
      assert Nodes(atoms, nbsp) == [NodeOf(a, nbsp)] + Nodes(atoms[1..], nbsp);
      assert Flat(atoms)[|Source(a)|..] == rest;
      if a.Br? {
        assert "<br />" <= Flat(atoms);
      } else if !a.Raw? {
        ReadEntity(a, rest, nbsp);
      }
    }
  }

  // ----- The whole of Protect on atoms -----

  /** How many spaces stand immediately before position `i`. */
  function SpacesBefore(t: string, i: nat): (n: nat)
    requires i <= |t|
    ensures n <= i
    ensures n > 0 <==> i > 0 && t[i - 1] == ' '
  {
    if i == 0 || t[i - 1] != ' ' then 0 else 1 + SpacesBefore(t, i - 1)
  }

  /** The spaces that come out as `&nbsp;`. */
  predicate Hardened(t: string, i: nat)
    requires i < |t|
  {
    && t[i] == ' '
    && (|| SpacesBefore(t, i) % 2 == 1
        || i == 0
        || t[i - 1] == '\n'
        || (i + 1 < |t| && IsNewline(t[i + 1])))
  }

  function Protected(t: string): (atoms: seq<Atom>)
    ensures |atoms| == |t|
    ensures forall i :: 0 <= i < |t| ==> atoms[i] == if Hardened(t, i) then Nbsp else AtomOf(t[i])
  {
    seq(|t|, i requires 0 <= i < |t| => if Hardened(t, i) then Nbsp else AtomOf(t[i]))
  }

  const PAIR: seq<Atom> := [Raw(' '), Raw(' ')]
  const SOFT_HARD: seq<Atom> := [Raw(' '), Nbsp]

  function Paired(t: string, i: nat): Atom
    requires i < |t|
  {
    if t[i] == ' ' && SpacesBefore(t, i) % 2 == 1 then Nbsp else AtomOf(t[i])
  }

  function PairedFrom(t: string, j: nat): (atoms: seq<Atom>)
    requires j <= |t|
    ensures |atoms| == |t| - j
    decreases |t| - j
  {
    if j == |t| then [] else [Paired(t, j)] + PairedFrom(t, j + 1)
  }

  lemma {:induction false} PairedFromAt(t: string, j: nat, i: nat)
    requires j <= i < |t|
    ensures PairedFrom(t, j)[i - j] == Paired(t, i)
    decreases i - j
  {
    if j < i {
      PairedFromAt(t, j + 1, i);
    }
  }

  /** Only a blank character has a blank atom. */
  lemma BlankAtom(c: char, blank: char)
    requires IsBlank(blank)
    ensures AtomOf(c) == Raw(blank) <==> c == blank
  {
  }

  lemma PairStep(s: seq<Atom>)
    requires |s| >= 2 && s[0] == s[1] == Raw(' ')
    ensures Replace(s, PAIR, SOFT_HARD) == SOFT_HARD + Replace(s[2..], PAIR, SOFT_HARD)
  {
    assert s[..2] == PAIR;
  }

  lemma NoPairStep(s: seq<Atom>)
    requires s != [] && !(|s| >= 2 && s[0] == s[1] == Raw(' '))
    ensures Replace(s, PAIR, SOFT_HARD) == [s[0]] + Replace(s[1..], PAIR, SOFT_HARD)
  {
    assert PAIR[0] == PAIR[1] == Raw(' ');
  }

  /** What step 3 does from position `j` on. */
  predicate PairedFromHere(t: string, j: nat)
    requires j <= |t|
  {
    Replace(Atoms(t)[j..], PAIR, SOFT_HARD) == PairedFrom(t, j)
  }

  lemma PairedTwice(t: string, j: nat)
    requires j + 1 < |t| && t[j] == ' ' && t[j + 1] == ' ' && SpacesBefore(t, j) % 2 == 0
    ensures PairedFrom(t, j) == SOFT_HARD + PairedFrom(t, j + 2)
  {
    hide AtomOf;
    BlankAtom(' ', ' ');
    assert SpacesBefore(t, j + 1) == 1 + SpacesBefore(t, j);
    hide SpacesBefore;
    assert SOFT_HARD == [Paired(t, j)] + [Paired(t, j + 1)];
    hide Paired;
    Associates([Paired(t, j)], [Paired(t, j + 1)], PairedFrom(t, j + 2));
  }

  lemma PairHere(t: string, j: nat)
    requires j + 1 < |t| && t[j] == ' ' && t[j + 1] == ' '
    requires SpacesBefore(t, j) % 2 == 0 && PairedFromHere(t, j + 2)
    ensures PairedFromHere(t, j)
  {
    hide AtomOf, Replace, PairedFrom, SpacesBefore;
    BlankAtom(' ', ' ');
    var s := Atoms(t)[j..];
    assert s[0] == s[1] == Raw(' ') && s[2..] == Atoms(t)[j + 2..];
    PairStep(s);
    PairedTwice(t, j);
  }

  lemma NoPairHere(t: string, j: nat)
    requires j < |t| && !(j + 1 < |t| && t[j] == ' ' && t[j + 1] == ' ')
    requires t[j] == ' ' ==> SpacesBefore(t, j) % 2 == 0
    requires PairedFromHere(t, j + 1)
    ensures PairedFromHere(t, j)
  {
    hide AtomOf, Replace;
    var s := Atoms(t)[j..];
    assert s[1..] == Atoms(t)[j + 1..] && s[0] == AtomOf(t[j]);
    BlankAtom(t[j], ' ');
    if j + 1 < |t| {
      assert s[1] == AtomOf(t[j + 1]);
      BlankAtom(t[j + 1], ' ');
    }
    NoPairStep(s);
  }

  /** Where an even number of spaces went before, step 3 can be read off position by position. */
  lemma {:induction false} PairsFrom(t: string, j: nat)
    requires j <= |t|
    requires j < |t| && t[j] == ' ' ==> SpacesBefore(t, j) % 2 == 0
    ensures PairedFromHere(t, j)
    decreases |t| - j
  {
    if j < |t| {
      hide PairedFromHere;
      if j + 1 < |t| && t[j] == ' ' && t[j + 1] == ' ' {
        assert SpacesBefore(t, j + 1) == 1 + SpacesBefore(t, j);
        PairsFrom(t, j + 2);
        PairHere(t, j);
      } else {
        PairsFrom(t, j + 1);
        NoPairHere(t, j);
      }
    }
  }

  lemma CleanAtoms(t: string)
    ensures Clean(Atoms(t))
  {
  }

  /** Step 3. */
  lemma StepThree(t: string)
    ensures Replace(HtmlSpecialChars(t), "  ", " &nbsp;") == Flat(PairedFrom(t, 0))
    ensures Clean(PairedFrom(t, 0))
  {
    hide Replace, HtmlSpecialChars, Flat, PairedFrom;
    SpecialsAreAtoms(t);
    CleanAtoms(t);
    SoftHard();
    ReplaceOnAtoms(Atoms(t), "  ", SOFT_HARD);
    assert Atoms(t)[0..] == Atoms(t);
    PairsFrom(t, 0);
    forall i | 0 <= i < |t|
      ensures PairedFrom(t, 0)[i] == Paired(t, i)
    {
      PairedFromAt(t, 0, i);
    }
  }

  lemma SoftHard()
    ensures Raws("  ") == PAIR
    ensures Flat(SOFT_HARD) == " &nbsp;"
  {
    FlatOfConcat([Raw(' ')], [Nbsp]);
    OneAtom(Raw(' '));
    OneAtom(Nbsp);
    assert [Raw(' ')] + [Nbsp] == SOFT_HARD;
  }

  /** Step 4. */
  lemma StepFour(atoms: seq<Atom>)
    requires Clean(atoms)
    ensures ReplaceLeadingSpaces(Flat(atoms), true) == Flat(HardenAtoms(atoms, true))
    ensures Clean(HardenAtoms(atoms, true))
  {
    LeadingSpacesOnAtoms(atoms, true);
    var r := HardenAtoms(atoms, true);
    forall i | 0 <= i < |r|
      ensures r[i] == Nbsp || r[i] == atoms[i]
    {
      HardenAtomsAt(atoms, true, i);
    }
  }

  /** Steps 2 to 5 turn the text into exactly the atoms of `Protected`. */
  lemma ProtectOnAtoms(t: string)
    ensures Protect(t) == Flat(Protected(t))
  {
    var b := PairedFrom(t, 0);
    StepThree(t);
    StepFour(b);
    var c := HardenAtoms(b, true);
    StepFive(c, '\r');
    assert [' ', '\r'] == " \r" && "&nbsp;" + ['\r'] == "&nbsp;\r";
    var d := Replace(c, [Raw(' '), Raw('\r')], [Nbsp, Raw('\r')]);
    StepFive(d, '\n');
    assert [' ', '\n'] == " \n" && "&nbsp;" + ['\n'] == "&nbsp;\n";
    var e := Replace(d, [Raw(' '), Raw('\n')], [Nbsp, Raw('\n')]);
    forall i | 0 <= i < |t|
      ensures e[i] == Protected(t)[i]
    {
      AtomAt(t, c, d, e, i);
    }
    assert e == Protected(t);
  }

  /** What step 4 leaves at position `i`. */
  lemma AtomAfterFour(t: string, i: nat)
    requires i < |t|
    ensures HardenAtoms(PairedFrom(t, 0), true)[i]
         == if t[i] == ' ' && (SpacesBefore(t, i) % 2 == 1 || i == 0 || t[i - 1] == '\n') then Nbsp else AtomOf(t[i])
  {
    hide AtomOf, HardenAtoms, PairedFrom;
    HardenAtomsAt(PairedFrom(t, 0), true, i);
    PairedFromAt(t, 0, i);
    BlankAtom(t[i], ' ');
    if i > 0 {
      PairedFromAt(t, 0, i - 1);
      BlankAtom(t[i - 1], '\n');
    }
  }

  /** The atom that steps 4 and 5 leave at position `i`. */
  lemma AtomAt(t: string, c: seq<Atom>, d: seq<Atom>, e: seq<Atom>, i: nat)
    requires c == HardenAtoms(PairedFrom(t, 0), true)
    requires d == Replace(c, [Raw(' '), Raw('\r')], [Nbsp, Raw('\r')])
    requires e == Replace(d, [Raw(' '), Raw('\n')], [Nbsp, Raw('\n')])
    requires i < |t|
    ensures |e| == |t| && e[i] == Protected(t)[i]
  {
    hide AtomOf, HardenAtoms, PairedFrom, Replace, SpacesBefore;
    AtomAfterFour(t, i);
    BlankAtom(t[i], ' ');
    StepFiveAt(c, d, '\r', i);
    StepFiveAt(d, e, '\n', i);
    if i + 1 < |t| {
      AtomAfterFour(t, i + 1);
      BlankAtom(t[i + 1], '\r');
      BlankAtom(t[i + 1], '\n');
      StepFiveAt(c, d, '\r', i + 1);
    }
  }

  /** One of the two replacements of step 5. */
  lemma StepFive(atoms: seq<Atom>, nl: char)
    requires Clean(atoms) && IsNewline(nl)
    ensures var after := Replace(atoms, [Raw(' '), Raw(nl)], [Nbsp, Raw(nl)]);
      && Replace(Flat(atoms), [' ', nl], "&nbsp;" + [nl]) == Flat(after)
      && |after| == |atoms| && Clean(after)
  {
    var after := Replace(atoms, [Raw(' '), Raw(nl)], [Nbsp, Raw(nl)]);
    assert Raws([' ', nl]) == [Raw(' '), Raw(nl)];
    FlatOfConcat([Nbsp], [Raw(nl)]);
    OneAtom(Nbsp);
    OneAtom(Raw(nl));
    assert [Nbsp] + [Raw(nl)] == [Nbsp, Raw(nl)];
    ReplaceOnAtoms(atoms, [' ', nl], [Nbsp, Raw(nl)]);
    ReplaceFirstOfTwoLength(atoms, Raw(' '), Raw(nl), Nbsp);
    forall i | 0 <= i < |after|
      ensures after[i] == Nbsp || after[i] == atoms[i]
    {
      ReplaceFirstOfTwo(atoms, Raw(' '), Raw(nl), Nbsp, i);
    }
  }

  lemma StepFiveAt(atoms: seq<Atom>, after: seq<Atom>, nl: char, i: nat)
    requires after == Replace(atoms, [Raw(' '), Raw(nl)], [Nbsp, Raw(nl)])
    requires IsNewline(nl) && i < |atoms|
    ensures |after| == |atoms|
    ensures after[i] == if atoms[i] == Raw(' ') && i + 1 < |atoms| && atoms[i + 1] == Raw(nl) then Nbsp else atoms[i]
  {
    ReplaceFirstOfTwo(atoms, Raw(' '), Raw(nl), Nbsp, i);
  }

  lemma OneAtom(a: Atom)
    ensures Flat([a]) == Source(a)
  {
    assert Flat([a]) == Source(a) + Flat([]);
  }
}
