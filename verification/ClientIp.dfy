/**
 The client address behind trusted proxies: `client_ip` of `src/libs/util.rs`.

 Address literals are read by a function that is a parameter; all that is asked of it is
 to read back what the proxies print.
*/
module ClientIp {
  import opened Text

  datatype Addr = V4(bits: nat) | V6(bits: nat)

  const LOOPBACK_V4 := V4(0x7F00_0001)
  const LOOPBACK_V6 := V6(1)
  const TRUSTED_HOPS := 1

  /** `IpAddr::to_canonical`: the IPv4-mapped block `::ffff:0:0/96` is IPv4. */
  function ToCanonical(a: Addr): Addr {
    match a
    case V4(_) => a
    case V6(bits) => if bits / 0x1_0000_0000 == 0xFFFF then V4(bits % 0x1_0000_0000) else a
  }

  predicate IsTrustedProxy(peer: Addr) {
    ToCanonical(peer) == LOOPBACK_V4 || ToCanonical(peer) == LOOPBACK_V6
  }

  /** The elements of all header lines; a line that is not text is skipped. */
  function Chain(lines: seq<Option<string>>): seq<string> {
    if lines == [] then [] else Words(lines[0]) + Chain(lines[1..])
  }

  function Words(line: Option<string>): seq<string> {
    match line
    case Some(value) => Split(value, ',')
    case None => []
  }

  function ClientIp(parse: string -> Option<Addr>, hops: nat, peer: Addr, lines: seq<Option<string>>): Addr
    requires hops > 0
  {
    var peer := ToCanonical(peer);
    if !IsTrustedProxy(peer) then peer
    else
      var chain := Chain(lines);
      if |chain| < hops then peer
      else
        match parse(Trim(chain[|chain| - hops], IsWhitespace))
        case Some(address) => address
        case None => peer
  }

  // ----- Proxies -----

  /**
   A proxy records the peer it saw, after a comma and perhaps some white space on the last line
   (section 5.3 of RFC 9110), or on a line of its own.
  */
  datatype Hop = Hop(saw: Addr, joins: bool, pad: string)

  predicate ValidHop(h: Hop) {
    forall i :: 0 <= i < |h.pad| ==> h.pad[i] == ' ' || h.pad[i] == '\t'
  }

  function Append(write: Addr -> string, lines: seq<Option<string>>, h: Hop): seq<Option<string>> {
    var element := h.pad + write(h.saw);
    if h.joins && lines != [] then
      var last := lines[|lines| - 1];
      lines[..|lines| - 1] + [if last.Some? then Some(last.value + [','] + element) else None]
    else lines + [Some(element)]
  }

  /** The header after all hops, the outermost first. */
  function Forward(write: Addr -> string, lines: seq<Option<string>>, hops: seq<Hop>): seq<Option<string>>
    decreases |hops|
  {
    if hops == [] then lines else Forward(write, Append(write, lines, hops[0]), hops[1..])
  }

  function Elements(write: Addr -> string, hops: seq<Hop>): (elements: seq<string>)
    ensures |elements| == |hops|
  {
    if hops == [] then [] else [hops[0].pad + write(hops[0].saw)] + Elements(write, hops[1..])
  }

  /** Printing an address gives a literal without commas or white space, and reading gives the address back. */
  ghost predicate ReadsWhatItWrites(parse: string -> Option<Addr>, write: Addr -> string) {
    forall a :: parse(write(a)) == Some(a) && write(a) != "" && Trimmed(write(a), IsWhitespace) && ',' !in write(a)
  }

  /** The line a comma would be added to is text. */
  predicate Joinable(lines: seq<Option<string>>, h: Hop) {
    h.joins && lines != [] ==> lines[|lines| - 1].Some?
  }

  lemma ChainOfOne(line: Option<string>, rest: seq<Option<string>>)
    ensures Chain([line] + rest) == Words(line) + Chain(rest)
  {
    assert ([line] + rest)[1..] == rest;
  }

  lemma {:induction false} ChainOfLast(lines: seq<Option<string>>, line: Option<string>)
    ensures Chain(lines + [line]) == Chain(lines) + Words(line)
  {
    if lines == [] {
      ChainOfOne(line, []);
      assert [] + [line] == [line] + [];
    } else {
      hide Chain, Words;
      var first, rest := lines[0], lines[1..];
      ChainOfLast(rest, line);
      assert lines == [first] + rest;
      assert lines + [line] == [first] + (rest + [line]);
      ChainOfOne(first, rest + [line]);
      ChainOfOne(first, rest);
      Associates(Words(first), Chain(rest), Words(line));
    }
  }

  /** Whichever way a hop records its peer, the chain grows by that one element on the right. */
  lemma AppendAddsOne(write: Addr -> string, lines: seq<Option<string>>, h: Hop)
    requires Joinable(lines, h) && ValidHop(h) && ',' !in write(h.saw)
    ensures Chain(Append(write, lines, h)) == Chain(lines) + [h.pad + write(h.saw)]
    ensures Append(write, lines, h) != []
    ensures var more := Append(write, lines, h); more[|more| - 1].Some?
  {
    var element := h.pad + write(h.saw);
    assert ',' !in element;
    hide Chain, ValidHop;
    if h.joins && lines != [] {
      var before, last := lines[..|lines| - 1], lines[|lines| - 1].value;
      assert lines == before + [Some(last)];
      ChainOfLast(before, Some(last));
      ChainOfLast(before, Some(last + [','] + element));
      SplitAtLast(last, element, ',');
      Associates(Chain(before), Split(last, ','), [element]);
    } else {
      ChainOfLast(lines, Some(element));
      SplitWithout(element, ',');
    }
  }

  lemma {:induction false} ForwardAddsAll(write: Addr -> string, lines: seq<Option<string>>, hops: seq<Hop>)
    requires hops != [] ==> Joinable(lines, hops[0])
    requires forall i :: 0 <= i < |hops| ==> ValidHop(hops[i]) && ',' !in write(hops[i].saw)
    ensures Chain(Forward(write, lines, hops)) == Chain(lines) + Elements(write, hops)
    decreases |hops|
  {
    hide Append, Chain, ValidHop;
    if hops != [] {
      AppendAddsOne(write, lines, hops[0]);
      ForwardAddsAll(write, Append(write, lines, hops[0]), hops[1..]);
    }
  }

  /**
   With as many trusted hops as there are proxies, the answer is the address the outermost of them saw,
   whatever the client sent, as long as the line that proxy added to was text. A peer that is not one of
   the proxies is the client, whatever the header says.
  */
  lemma OutermostHopDecides(parse: string -> Option<Addr>, write: Addr -> string, peer: Addr,
                            sent: seq<Option<string>>, hops: seq<Hop>)
    requires ReadsWhatItWrites(parse, write)
    requires hops != [] && Joinable(sent, hops[0])
    requires forall i :: 0 <= i < |hops| ==> ValidHop(hops[i])
    ensures ClientIp(parse, |hops|, peer, Forward(write, sent, hops))
         == if IsTrustedProxy(peer) then hops[0].saw else ToCanonical(peer)
  {
    ForwardAddsAll(write, sent, hops);
    var first := hops[0].pad + write(hops[0].saw);
    assert Elements(write, hops)[0] == first;
    TrimUnpads(hops[0].pad, write(hops[0].saw), "", IsWhitespace);
    assert first + "" == first;
    CanonicalIsCanonical(peer);
    hide Chain, Forward, Trim, ToCanonical, Elements;
  }

  /** How many proxies in a row add to a last line that is not text, so that it stays none. */
  function Lost(hops: seq<Hop>): (n: nat)
    ensures n <= |hops|
  {
    if hops == [] || !hops[0].joins then 0 else 1 + Lost(hops[1..])
  }

  /** Adding to a line that is not text adds nothing to the chain. */
  lemma LostAddsNothing(write: Addr -> string, lines: seq<Option<string>>, h: Hop)
    requires !Joinable(lines, h)
    ensures Append(write, lines, h) == lines
  {
    assert lines[..|lines| - 1] + [None] == lines;
  }

  lemma {:induction false} ForwardAfterLoss(write: Addr -> string, lines: seq<Option<string>>, hops: seq<Hop>)
    requires lines != [] && lines[|lines| - 1].None?
    requires forall i :: 0 <= i < |hops| ==> ValidHop(hops[i]) && ',' !in write(hops[i].saw)
    ensures Chain(Forward(write, lines, hops)) == Chain(lines) + Elements(write, hops[Lost(hops)..])
    decreases |hops|
  {
    hide Chain, ValidHop, Append;
    if hops == [] {
      assert hops[0..] == [];
    } else if hops[0].joins {
      LostAddsNothing(write, lines, hops[0]);
      ForwardAfterLoss(write, lines, hops[1..]);
      assert hops[Lost(hops)..] == hops[1..][Lost(hops[1..])..];
    } else {
      ForwardAddsAll(write, lines, hops);
      assert hops[0..] == hops;
    }
  }

  /** Elements added on the right change nothing for who counts that many further. */
  lemma MoreOnTheRight(parse: string -> Option<Addr>, peer: Addr, lines: seq<Option<string>>, n: nat,
                       more: seq<Option<string>>, added: seq<string>)
    requires n > 0 && Chain(more) == Chain(lines) + added
    ensures ClientIp(parse, n + |added|, peer, more) == ClientIp(parse, n, peer, lines)
  {
    hide Chain, Trim, ToCanonical, IsTrustedProxy;
    if |Chain(lines)| >= n {
      assert Chain(more)[|Chain(more)| - (n + |added|)] == Chain(lines)[|Chain(lines)| - n];
    }
  }

  /**
   The other half: when the line the first proxy adds to is not text, the record of that proxy is lost, and of
   those that add to the same line after it. The answer is then what the client's own lines give that many
   hops from the right, whatever the proxies saw.
  */
  lemma LostRecordsDecideNothing(parse: string -> Option<Addr>, write: Addr -> string, peer: Addr,
                                 sent: seq<Option<string>>, hops: seq<Hop>)
    requires ReadsWhatItWrites(parse, write)
    requires hops != [] && !Joinable(sent, hops[0])
    requires forall i :: 0 <= i < |hops| ==> ValidHop(hops[i])
    ensures Lost(hops) > 0
    ensures ClientIp(parse, |hops|, peer, Forward(write, sent, hops)) == ClientIp(parse, Lost(hops), peer, sent)
  {
    ForwardAfterLoss(write, sent, hops);
    assert Lost(hops) > 0;
    hide Chain, Forward, Elements, ValidHop, Lost, ReadsWhatItWrites, ClientIp;
    MoreOnTheRight(parse, peer, sent, Lost(hops), Forward(write, sent, hops), Elements(write, hops[Lost(hops)..]));
  }

  /** The hops with another address seen by the outermost. */
  function Seeing(hops: seq<Hop>, saw: Addr): seq<Hop>
    requires hops != []
  {
    [hops[0].(saw := saw)] + hops[1..]
  }

  lemma SeeingIsValid(hops: seq<Hop>, saw: Addr)
    requires hops != [] && forall i :: 0 <= i < |hops| ==> ValidHop(hops[i])
    ensures forall i :: 0 <= i < |hops| ==> ValidHop(Seeing(hops, saw)[i])
    ensures Lost(Seeing(hops, saw)) == Lost(hops)
  {
    assert Seeing(hops, saw)[1..] == hops[1..];
  }

  /**
   Behind the proxies, the answer is the address the outermost of them saw, for every address it may see, if
   and only if the line it adds to is text.
  */
  lemma OutermostHopDecidesIff(parse: string -> Option<Addr>, write: Addr -> string, peer: Addr,
                               sent: seq<Option<string>>, hops: seq<Hop>)
    requires ReadsWhatItWrites(parse, write) && IsTrustedProxy(peer)
    requires hops != [] && forall i :: 0 <= i < |hops| ==> ValidHop(hops[i])
    ensures (forall saw :: ClientIp(parse, |hops|, peer, Forward(write, sent, Seeing(hops, saw))) == saw)
       <==> Joinable(sent, hops[0])
  {
    if Joinable(sent, hops[0]) {
      forall saw
        ensures ClientIp(parse, |hops|, peer, Forward(write, sent, Seeing(hops, saw))) == saw
      {
        SeeingIsValid(hops, saw);
        hide ClientIp, Forward, ReadsWhatItWrites;
        OutermostHopDecides(parse, write, peer, sent, Seeing(hops, saw));
      }
    } else {
      var x, y := V4(0), V4(1);
      SeeingIsValid(hops, x);
      SeeingIsValid(hops, y);
      LostRecordsDecideNothing(parse, write, peer, sent, Seeing(hops, x));
      LostRecordsDecideNothing(parse, write, peer, sent, Seeing(hops, y));
      hide ClientIp, Forward, ReadsWhatItWrites, ValidHop, Lost;
      var first := ClientIp(parse, |hops|, peer, Forward(write, sent, Seeing(hops, x)));
      var second := ClientIp(parse, |hops|, peer, Forward(write, sent, Seeing(hops, y)));
      assert first == second;
    }
  }

  function LastWord(line: string): string {
    var words := Split(line, ',');
    words[|words| - 1]
  }

  /**
   With one trusted hop only the end of the last line counts: no line before it hides or replaces the
   address there, and if it is not an address nothing is promoted in its place.
  */
  lemma OnlyTheEndCounts(parse: string -> Option<Addr>, peer: Addr, lines: seq<Option<string>>, last: string)
    requires IsTrustedProxy(peer)
    ensures ClientIp(parse, TRUSTED_HOPS, peer, lines + [Some(last)])
         == match parse(Trim(LastWord(last), IsWhitespace))
            case Some(address) => address
            case None => ToCanonical(peer)
  {
    ChainOfLast(lines, Some(last));
    CanonicalIsCanonical(peer);
    hide Chain, Trim, ToCanonical, Split;
  }

  /** A line that is not text is as if it had not been sent. */
  lemma UnreadableLineIsSkipped(parse: string -> Option<Addr>, hops: nat, peer: Addr, lines: seq<Option<string>>)
    requires hops > 0
    ensures ClientIp(parse, hops, peer, lines + [None]) == ClientIp(parse, hops, peer, lines)
  {
    ChainOfLast(lines, None);
    hide Chain, ClientIp;
    MoreOnTheRight(parse, peer, lines, hops, lines + [None], []);
  }

  /** With nothing forwarded, or fewer addresses than there are proxies, the peer is the client. */
  lemma TooShortAChain(parse: string -> Option<Addr>, hops: nat, peer: Addr, lines: seq<Option<string>>)
    requires |Chain(lines)| < hops
    ensures ClientIp(parse, hops, peer, lines) == ToCanonical(peer)
    ensures Chain([]) == []
  {
    CanonicalIsCanonical(peer);
    hide Trim, ToCanonical;
  }

  lemma CanonicalIsCanonical(a: Addr)
    ensures ToCanonical(ToCanonical(a)) == ToCanonical(a)
  {
  }

  const IPV4_SPAN := 0x1_0000_0000

  /** The IPv4-mapped addresses, `::ffff:a.b.c.d`, are the IPv4 addresses; every other is itself. */
  lemma CanonicalByBlock(a: Addr, bits: nat)
    ensures bits < IPV4_SPAN ==> ToCanonical(V6(0xFFFF_0000_0000 + bits)) == V4(bits)
    ensures ToCanonical(a) != a <==> a.V6? && 0xFFFF_0000_0000 <= a.bits < 0x1_0000_0000_0000
  {
  }

  /** Trusted are 127.0.0.1, its mapped form, and ::1, and no other. */
  lemma TrustedIff(peer: Addr)
    ensures IsTrustedProxy(peer) <==> peer == V4(0x7F00_0001) || peer == V6(0xFFFF_7F00_0001) || peer == V6(1)
  {
    CanonicalByBlock(peer, 0x7F00_0001);
  }
}
