/**
 The hit counter of `src/libs/phpcount.rs`, one request at a time. The class runs the
 source's statements on its two tables and its key; each method is proved against a
 function on the values of those fields, about which the histories are then proved.

 Clock readings are parameters. The HMAC is an identifier made of the key's epoch and
 the message it authenticates.
*/
module HitCounter {
  import opened Text
  import opened HitTable

  const HIT_OLD_AFTER_SECONDS: int := 2592000
  const VISITOR_KEY_LIFETIME: int := 60 * 24 * 60 * 60

  // ----- Identifiers -----

  datatype Key = Key(epoch: nat, created: int)

  datatype Id = Id(epoch: nat, message: string)

  const NUL: char := '\0'

  function Message(page: string, addr: string): string {
    page + [NUL] + addr
  }

  function IdHash(key: Key, page: string, addr: string): Id {
    Id(key.epoch, Message(page, addr))
  }

  predicate NulFree(s: string) {
    NUL !in s
  }

  /** The separator keeps page and address apart: no two pairs share an identifier. */
  lemma IdentifiesVisitor(page: string, addr: string, page': string, addr': string)
    requires NulFree(page) && NulFree(page')
    ensures Message(page, addr) == Message(page', addr') <==> page == page' && addr == addr'
  {
    SplitAtSeparator(page, addr, NUL);
    SplitAtSeparator(page', addr', NUL);
    assert ([page] + Split(addr, NUL))[0] == page && ([page'] + Split(addr', NUL))[0] == page';
    assert Message(page, addr)[|page| + 1..] == addr && Message(page', addr')[|page'| + 1..] == addr';
  }

  /** `id_hash` replaces an expired key first. */
  predicate KeyExpired(key: Key, now: int) {
    now - key.created >= VISITOR_KEY_LIFETIME
  }

  function Refresh(key: Key, check: int, stamp: int): Key {
    if KeyExpired(key, check) then Key(key.epoch + 1, stamp) else key
  }

  // ----- Bots -----

  const BOT_KEYWORDS: seq<string> := [
    "bot", "spider", "spyder", "crawler", "walker", "search",
    "yahoo", "holmes", "htdig", "archive", "tineye", "yacy", "yeti"
  ]

  predicate IsSearchBot(agent: string) {
    exists i :: 0 <= i < |BOT_KEYWORDS| && Contains(ToLower(agent), BOT_KEYWORDS[i])
  }

  /** Somewhere in `agent` stands `keyword`, in any case. */
  predicate Mentions(agent: string, keyword: string, before: string, word: string, after: string) {
    agent == before + word + after && ToLower(word) == keyword
  }

  lemma LowerSlice(s: string, i: nat, j: nat)
    requires i <= j <= |s|
    ensures ToLower(s[i..j]) == ToLower(s)[i..j]
  {
  }

  lemma MentionIsContained(agent: string, keyword: string, before: string, word: string, after: string)
    requires Mentions(agent, keyword, before, word, after)
    ensures Contains(ToLower(agent), keyword)
  {
    var i := |before|;
    assert agent[i..i + |word|] == word;
    LowerSlice(agent, i, i + |word|);
    assert ToLower(agent)[i..][..|word|] == ToLower(agent)[i..i + |word|];
    assert keyword <= ToLower(agent)[i..];
  }

  lemma PartOfSuffix(s: string, i: nat, part: string)
    requires i <= |s| && part <= s[i..]
    ensures i + |part| <= |s| && s[i..i + |part|] == part
  {
    assert s[i..i + |part|] == s[i..][..|part|];
  }

  lemma ContainedIsMention(agent: string, keyword: string)
    requires Contains(ToLower(agent), keyword)
    ensures exists before, word, after :: Mentions(agent, keyword, before, word, after)
  {
    hide ToLower, Mentions;
    var i :| 0 <= i <= |ToLower(agent)| && keyword <= ToLower(agent)[i..];
    PartOfSuffix(ToLower(agent), i, keyword);
    MentionAt(agent, keyword, i);
  }

  lemma MentionAt(agent: string, keyword: string, i: nat)
    requires i + |keyword| <= |agent| && ToLower(agent)[i..i + |keyword|] == keyword
    ensures exists before, word, after :: Mentions(agent, keyword, before, word, after)
  {
    var j := i + |keyword|;
    LowerSlice(agent, i, j);
    hide ToLower;
    assert agent == agent[..i] + agent[i..j] + agent[j..];
    assert Mentions(agent, keyword, agent[..i], agent[i..j], agent[j..]);
  }

  /** A bot is whoever mentions one of the keywords, anywhere and in any case. */
  lemma BotIffMentioned(agent: string)
    ensures IsSearchBot(agent) <==>
              exists i, before, word, after :: 0 <= i < |BOT_KEYWORDS|
                && Mentions(agent, BOT_KEYWORDS[i], before, word, after)
  {
    hide BOT_KEYWORDS, Contains, Mentions;
    if IsSearchBot(agent) {
      var i :| 0 <= i < |BOT_KEYWORDS| && Contains(ToLower(agent), BOT_KEYWORDS[i]);
      ContainedIsMention(agent, BOT_KEYWORDS[i]);
    }
    if i, before, word, after :| 0 <= i < |BOT_KEYWORDS| && Mentions(agent, BOT_KEYWORDS[i], before, word, after) {
      MentionIsContained(agent, BOT_KEYWORDS[i], before, word, after);
    }
  }

  // ----- One request, on values -----

  datatype Visit = Visit(page: string, addr: string, agent: string)

  /** The readings one request takes, in the order it takes them. */
  datatype Clocks = Clocks(sweep: int, check: int, stamp: int, judge: int, check': int, stamp': int, log: int)

  datatype Store = Store(hits: seq<Row>, seen: map<Id, int>, key: Key)

  datatype Answer = Skipped | Repeat | Unique

  /** DELETE FROM csnodupes WHERE time < cutoff. */
  function Sweep(seen: map<Id, int>, cutoff: int): map<Id, int> {
    map id | id in seen && seen[id] >= cutoff :: seen[id]
  }

  function EnsureRow(hits: seq<Row>, page: string, unique: bool): seq<Row> {
    if Has(hits, page, unique) then hits else Insert(hits, page, unique)
  }

  function EnsureRows(hits: seq<Row>, page: string): seq<Row> {
    EnsureRow(EnsureRow(hits, page, false), page, true)
  }

  predicate LooksUnique(seen: map<Id, int>, id: Id, now: int) {
    id in seen ==> seen[id] <= now - HIT_OLD_AFTER_SECONDS
  }

  /** `add_hit`, with the sweep as the source has it or left out. */
  function Counted(s: Store, v: Visit, c: Clocks, sweeping: bool): (Store, Answer) {
    if IsSearchBot(v.agent) then (s, Skipped)
    else
      var seen := if sweeping then Sweep(s.seen, c.sweep - HIT_OLD_AFTER_SECONDS) else s.seen;
      var hits := EnsureRows(s.hits, v.page);
      var key := Refresh(s.key, c.check, c.stamp);
      if LooksUnique(seen, IdHash(key, v.page, v.addr), c.judge) then
        var key' := Refresh(key, c.check', c.stamp');
        (Store(Bump(Bump(hits, v.page, true), v.page, false),
               seen[IdHash(key', v.page, v.addr) := c.log], key'), Unique)
      else
        (Store(Bump(hits, v.page, false), seen, key), Repeat)
  }

  /** A request leaves no trace exactly when it is a bot's. */
  lemma BotsLeaveNoTrace(s: Store, v: Visit, c: Clocks, sweeping: bool)
    ensures Counted(s, v, c, sweeping).1 == Skipped <==> IsSearchBot(v.agent)
    ensures IsSearchBot(v.agent) ==> Counted(s, v, c, sweeping).0 == s
  {
    hide IsSearchBot, EnsureRows, Sweep, LooksUnique;
  }

  datatype HitCounts = HitCounts(pageHits: nat, uniqueHits: nat, totalHits: nat, totalUniqueHits: nat)

  // ----- The service -----

  class PhpCount {
    var hits: seq<Row>
    var seen: map<Id, int>
    var key: Key

    ghost function State(): Store
      reads this
    {
      Store(hits, seen, key)
    }

    /** A process that starts on an existing database with a fresh key. */
    constructor (hits: seq<Row>, seen: map<Id, int>, epoch: nat, now: int)
      ensures State() == Store(hits, seen, Key(epoch, now))
    {
      this.hits, this.seen, this.key := hits, seen, Key(epoch, now);
    }

    method Cleanup(now: int)
      modifies this`seen
      ensures State() == old(State()).(seen := Sweep(old(seen), now - HIT_OLD_AFTER_SECONDS))
    {
      var cutoff := now - HIT_OLD_AFTER_SECONDS;
      seen := Sweep(seen, cutoff);
    }

    method CreateCountsIfNotPresent(page: string)
      modifies this`hits
      ensures State() == old(State()).(hits := EnsureRows(old(hits), page))
    {
      if !Has(hits, page, false) {
        hits := Insert(hits, page, false);
      }
      if !Has(hits, page, true) {
        hits := Insert(hits, page, true);
      }
    }

    method HashId(page: string, addr: string, check: int, stamp: int) returns (id: Id)
      modifies this`key
      ensures State() == old(State()).(key := Refresh(old(key), check, stamp))
      ensures id == IdHash(key, page, addr)
    {
      if KeyExpired(key, check) {
        key := Key(key.epoch + 1, stamp);
      }
      id := IdHash(key, page, addr);
    }

    method IsUniqueHit(page: string, addr: string, c: Clocks) returns (unique: bool)
      modifies this`key
      ensures State() == old(State()).(key := Refresh(old(key), c.check, c.stamp))
      ensures unique == LooksUnique(seen, IdHash(key, page, addr), c.judge)
    {
      var id := HashId(page, addr, c.check, c.stamp);
      if id in seen {
        unique := seen[id] <= c.judge - HIT_OLD_AFTER_SECONDS;
      } else {
        unique := true;
      }
    }

    method LogHit(page: string, addr: string, c: Clocks)
      modifies this`key, this`seen
      ensures var key' := Refresh(old(key), c.check', c.stamp');
        State() == Store(old(hits), old(seen)[IdHash(key', page, addr) := c.log], key')
    {
      var id := HashId(page, addr, c.check', c.stamp');
      seen := seen[id := c.log];
    }

    method CountHit(page: string, unique: bool)
      modifies this`hits
      ensures State() == old(State()).(hits := Bump(old(hits), page, unique))
    {
      hits := Bump(hits, page, unique);
    }

    method AddHit(v: Visit, c: Clocks) returns (counted: bool)
      modifies this
      ensures State() == Counted(old(State()), v, c, true).0
      ensures counted <==> Counted(old(State()), v, c, true).1 != Skipped
    {
      hide EnsureRows, Bump, Sweep, Refresh, IsSearchBot;
      if IsSearchBot(v.agent) {
        return false;
      }
      Cleanup(c.sweep);
      CreateCountsIfNotPresent(v.page);
      var unique := IsUniqueHit(v.page, v.addr, c);
      if unique {
        CountHit(v.page, true);
        LogHit(v.page, v.addr, c);
      }
      CountHit(v.page, false);
      return true;
    }

    method GetHitCounts(page: string) returns (counts: HitCounts)
      modifies this`hits
      ensures State() == old(State()).(hits := EnsureRows(old(hits), page))
      ensures counts == HitCounts(CountOf(hits, page, false), CountOf(hits, page, true),
                                  Total(hits, false), Total(hits, true))
    {
      CreateCountsIfNotPresent(page);
      counts := HitCounts(CountOf(hits, page, false), CountOf(hits, page, true), Total(hits, false), Total(hits, true));
    }
  }

  // ----- What one request does to the counters -----

  lemma EnsureRowFacts(hits: seq<Row>, page: string, unique: bool)
    ensures Keyed(hits) ==> Keyed(EnsureRow(hits, page, unique))
    ensures Has(EnsureRow(hits, page, unique), page, unique)
    ensures forall p, u :: Has(hits, p, u) ==> Has(EnsureRow(hits, page, unique), p, u)
    ensures forall p, u :: CountOf(EnsureRow(hits, page, unique), p, u) == CountOf(hits, p, u)
    ensures forall u :: Total(EnsureRow(hits, page, unique), u) == Total(hits, u)
  {
    InsertKeeps(hits, page, unique);
    forall p, u
      ensures CountOf(Insert(hits, page, unique), p, u) == CountOf(hits, p, u)
    {
      InsertCounts(hits, page, unique, p, u);
    }
    forall u
      ensures Total(Insert(hits, page, unique), u) == Total(hits, u)
    {
      InsertTotals(hits, page, unique, u);
    }
  }

  lemma EnsureRowsFacts(hits: seq<Row>, page: string)
    requires Keyed(hits)
    ensures Keyed(EnsureRows(hits, page))
    ensures Has(EnsureRows(hits, page), page, false) && Has(EnsureRows(hits, page), page, true)
    ensures forall p, u :: CountOf(EnsureRows(hits, page), p, u) == CountOf(hits, p, u)
    ensures forall u :: Total(EnsureRows(hits, page), u) == Total(hits, u)
  {
    EnsureRowFacts(hits, page, false);
    EnsureRowFacts(EnsureRow(hits, page, false), page, true);
  }

  lemma BumpOnce(hits: seq<Row>, page: string, unique: bool)
    requires Keyed(hits) && Has(hits, page, unique)
    ensures var after := Bump(hits, page, unique);
      && Keyed(after)
      && (forall p, u :: Has(after, p, u) <==> Has(hits, p, u))
      && (forall p, u :: CountOf(after, p, u) == CountOf(hits, p, u) + if p == page && u == unique then 1 else 0)
      && (forall u :: Total(after, u) == Total(hits, u) + if u == unique then 1 else 0)
  {
    var after := Bump(hits, page, unique);
    BumpKeeps(hits, page, unique);
    AtMostOneRow(hits, page, unique);
    forall p, u
      ensures CountOf(after, p, u) == CountOf(hits, p, u) + if p == page && u == unique then 1 else 0
    {
      BumpCounts(hits, page, unique, p, u);
    }
    forall u
      ensures Total(after, u) == Total(hits, u) + if u == unique then 1 else 0
    {
      BumpTotals(hits, page, unique, u);
    }
  }

  function Worth(answer: Answer, unique: bool): nat {
    if answer == Unique || (answer == Repeat && !unique) then 1 else 0
  }

  /** A request moves its own page's counts and the site totals by what it was judged, and nothing else. */
  lemma CountedMovesCounters(s: Store, v: Visit, c: Clocks, sweeping: bool)
    requires Keyed(s.hits)
    ensures var (s', answer) := Counted(s, v, c, sweeping);
      && Keyed(s'.hits)
      && (forall p, u :: CountOf(s'.hits, p, u) == CountOf(s.hits, p, u) + if p == v.page then Worth(answer, u) else 0)
      && (forall u :: Total(s'.hits, u) == Total(s.hits, u) + Worth(answer, u))
  {
    hide EnsureRows, Bump, Sweep, Refresh, IsSearchBot, LooksUnique, Keyed, Has, CountOf, Total;
    var hits := EnsureRows(s.hits, v.page);
    EnsureRowsFacts(s.hits, v.page);
    BumpOnce(hits, v.page, true);
    BumpOnce(Bump(hits, v.page, true), v.page, false);
    BumpOnce(hits, v.page, false);
  }
}
