/**
 The page registry and the resolution of paths against it: `src/registry/mod.rs` and
 `src/registry/pages.rs`.

 A page either redirects to another slug or has a handler. Titles and other metadata
 play no part in resolution and are not modelled.
*/
module Registry {
  import opened Text

  datatype Handler = Handler(acceptsPost: bool)

  datatype PageInfo = PageInfo(slug: string, redirect: Option<string>, handler: Option<Handler>, hitId: string)

  type Pages = map<string, PageInfo>

  function RelativeUrl(page: PageInfo): string {
    if page.slug == "" then "/" else "/" + page.slug + ".htm"
  }

  function Lookup(reg: Pages, name: string): Option<PageInfo> {
    var key := ToLower(name);
    if key in reg then Some(reg[key]) else None
  }

  // ----- Building the registry -----

  /** `reg` holds exactly `pages`, each under its lowercased slug. */
  ghost predicate Indexes(reg: Pages, pages: seq<PageInfo>) {
    && (forall i :: 0 <= i < |pages| ==> ToLower(pages[i].slug) in reg && reg[ToLower(pages[i].slug)] == pages[i])
    && (forall k :: k in reg ==> exists i :: 0 <= i < |pages| && k == ToLower(pages[i].slug))
  }

  ghost predicate DistinctSlugs(pages: seq<PageInfo>) {
    forall i, j :: 0 <= i < j < |pages| ==> ToLower(pages[i].slug) != ToLower(pages[j].slug)
  }

  /** Adding a page under a new key. */
  lemma IndexOneMore(m: Pages, pages: seq<PageInfo>, page: PageInfo)
    requires Indexes(m, pages) && DistinctSlugs(pages)
    ensures var key := ToLower(page.slug);
            key !in m ==> Indexes(m[key := page], pages + [page]) && DistinctSlugs(pages + [page])
    ensures ToLower(page.slug) in m ==> !DistinctSlugs(pages + [page])
  {
    hide ToLower;
    var key, more := ToLower(page.slug), pages + [page];
    if key in m {
      var i :| 0 <= i < |pages| && key == ToLower(pages[i].slug);
      assert ToLower(more[i].slug) == ToLower(more[|pages|].slug);
    } else {
      var m' := m[key := page];
      forall k | k in m'
        ensures exists i :: 0 <= i < |more| && k == ToLower(more[i].slug)
      {
        if k == key {
          assert more[|pages|] == page;
        } else {
          var i :| 0 <= i < |pages| && k == ToLower(pages[i].slug);
          assert more[i] == pages[i];
        }
      }
    }
  }

  lemma PrefixesAreDistinct(pages: seq<PageInfo>, n: nat)
    requires n <= |pages| && DistinctSlugs(pages)
    ensures DistinctSlugs(pages[..n])
  {
    hide ToLower;
  }

  /** The initializer of `PAGE_REGISTRY`; `None` is its panic on a duplicate slug. */
  method Build(pages: seq<PageInfo>) returns (reg: Option<Pages>)
    ensures reg.Some? <==> DistinctSlugs(pages)
    ensures reg.Some? ==> Indexes(reg.value, pages)
  {
    hide DistinctSlugs, Indexes, ToLower;
    var m: Pages := map[];
    EmptyIsIndexed();
    assert pages[..0] == [];
    for i := 0 to |pages|
      invariant DistinctSlugs(pages[..i])
      invariant Indexes(m, pages[..i])
    {
      var key := ToLower(pages[i].slug);
      IndexOneMore(m, pages[..i], pages[i]);
      assert pages[..i + 1] == pages[..i] + [pages[i]];
      if key in m {
        if DistinctSlugs(pages) {
          PrefixesAreDistinct(pages, i + 1);
        }
        return None;
      }
      m := m[key := pages[i]];
    }
    assert pages[..|pages|] == pages;
    return Some(m);
  }

  lemma EmptyIsIndexed()
    ensures DistinctSlugs([]) && Indexes(map[], [])
  {
  }

  // ----- Alias chains -----

  datatype ChainEnd = Found(page: PageInfo) | Dangling | Loops

  /** `resolve_alias`, made total: the keys already passed are remembered. */
  function Chase(reg: Pages, page: PageInfo, seen: set<string>): ChainEnd
    decreases reg.Keys - seen
  {
    match page.redirect
    case None => Found(page)
    case Some(target) =>
      var key := ToLower(target);
      if key !in reg then Dangling
      else if key in seen then Loops
      else Chase(reg, reg[key], seen + {key})
  }

  datatype Recursion = Returned(page: PageInfo) | Panicked | StillCalling

  /** The recursion as the source writes it, after at most `calls` nested calls. */
  function Recurse(reg: Pages, page: PageInfo, calls: nat): Recursion
    decreases calls
  {
    match page.redirect
    case None => Returned(page)
    case Some(target) =>
      var key := ToLower(target);
      if key !in reg then Panicked
      else if calls == 0 then StillCalling
      else Recurse(reg, reg[key], calls - 1)
  }

  lemma {:induction false} RecurseSettles(reg: Pages, page: PageInfo, calls: nat, more: nat)
    requires calls <= more && !Recurse(reg, page, calls).StillCalling?
    ensures Recurse(reg, page, more) == Recurse(reg, page, calls)
    decreases calls
  {
    if page.redirect.Some? && ToLower(page.redirect.value) in reg {
      RecurseSettles(reg, reg[ToLower(page.redirect.value)], calls - 1, more - 1);
    }
  }

  function Outcome(t: ChainEnd): Recursion {
    match t
    case Found(page) => Returned(page)
    case Dangling => Panicked
    case Loops => StillCalling
  }

  /** Pages on a chain that ends have distinct distances to the end, so none is met twice. */
  lemma {:induction false} EndingIsFound(reg: Pages, page: PageInfo, calls: nat, seen: set<string>)
    requires !Recurse(reg, page, calls).StillCalling?
    requires calls > 0 ==> Recurse(reg, page, calls - 1).StillCalling?
    requires calls > 0 ==> forall k :: k in seen ==> k in reg && Recurse(reg, reg[k], calls - 1).StillCalling?
    ensures Outcome(Chase(reg, page, seen)) == Recurse(reg, page, calls)
    decreases calls
  {
    if calls > 0 {
      var key := ToLower(page.redirect.value);
      if calls > 1 {
        forall k | k in seen + {key}
          ensures k in reg && Recurse(reg, reg[k], calls - 2).StillCalling?
        {
          if k in seen && !Recurse(reg, reg[k], calls - 2).StillCalling? {
            RecurseSettles(reg, reg[k], calls - 2, calls - 1);
          }
        }
      }
      EndingIsFound(reg, reg[key], calls - 1, seen + {key});
    }
  }

  lemma {:induction false} FoundIsEnding(reg: Pages, page: PageInfo, seen: set<string>) returns (calls: nat)
    requires !Chase(reg, page, seen).Loops?
    ensures !Recurse(reg, page, calls).StillCalling?
    decreases reg.Keys - seen
  {
    calls := 0;
    if page.redirect.Some? && ToLower(page.redirect.value) in reg {
      var key := ToLower(page.redirect.value);
      var rest := FoundIsEnding(reg, reg[key], seen + {key});
      calls := rest + 1;
    }
  }

  lemma {:induction false} FewestCalls(reg: Pages, page: PageInfo, calls: nat) returns (fewest: nat)
    requires !Recurse(reg, page, calls).StillCalling?
    ensures !Recurse(reg, page, fewest).StillCalling?
    ensures fewest > 0 ==> Recurse(reg, page, fewest - 1).StillCalling?
  {
    fewest := calls;
    if calls > 0 && !Recurse(reg, page, calls - 1).StillCalling? {
      fewest := FewestCalls(reg, page, calls - 1);
    }
  }

  /** Remembering keys answers what the recursion answers, and says so when it never would. */
  lemma ChaseIsTheRecursion(reg: Pages, page: PageInfo)
    ensures Chase(reg, page, {}).Loops? <==> forall calls: nat :: Recurse(reg, page, calls).StillCalling?
    ensures forall calls: nat :: !Recurse(reg, page, calls).StillCalling?
                             ==> Recurse(reg, page, calls) == Outcome(Chase(reg, page, {}))
  {
    forall calls: nat | !Recurse(reg, page, calls).StillCalling?
      ensures Recurse(reg, page, calls) == Outcome(Chase(reg, page, {}))
    {
      var fewest := FewestCalls(reg, page, calls);
      EndingIsFound(reg, page, fewest, {});
      if calls <= fewest {
        RecurseSettles(reg, page, calls, fewest);
      } else {
        RecurseSettles(reg, page, fewest, calls);
      }
    }
    if !Chase(reg, page, {}).Loops? {
      var calls := FoundIsEnding(reg, page, {});
    }
  }

  /** The page a chain ends at is no alias, and is registered if the chain starts at a registered page. */
  lemma {:induction false} FoundIsRegistered(reg: Pages, page: PageInfo, seen: set<string>)
    requires Chase(reg, page, seen).Found?
    ensures Chase(reg, page, seen).page.redirect.None?
    ensures page in reg.Values ==> Chase(reg, page, seen).page in reg.Values
    decreases reg.Keys - seen
  {
    if page.redirect.Some? {
      var key := ToLower(page.redirect.value);
      FoundIsRegistered(reg, reg[key], seen + {key});
    }
  }

  /** Every alias points at a registered page of lower rank: targets exist and there is no cycle. */
  ghost predicate Ranked(reg: Pages, rank: map<string, nat>) {
    && rank.Keys == reg.Keys
    && forall k :: k in reg && reg[k].redirect.Some? ==>
         var key := ToLower(reg[k].redirect.value);
         key in reg && rank[key] < rank[k]
  }

  ghost predicate AliasesEnd(reg: Pages) {
    forall k :: k in reg ==> Chase(reg, reg[k], {}).Found?
  }

  lemma {:induction false} RankBoundsCalls(reg: Pages, rank: map<string, nat>, k: string)
    requires Ranked(reg, rank) && k in reg
    ensures Recurse(reg, reg[k], rank[k]).Returned?
    decreases rank[k]
  {
    if reg[k].redirect.Some? {
      var key := ToLower(reg[k].redirect.value);
      RankBoundsCalls(reg, rank, key);
      RecurseSettles(reg, reg[key], rank[key], rank[k] - 1);
    }
  }

  function CallsNeeded(reg: Pages, page: PageInfo, seen: set<string>): nat
    requires Chase(reg, page, seen).Found?
    decreases reg.Keys - seen
  {
    if page.redirect.None? then 0
    else var key := ToLower(page.redirect.value); 1 + CallsNeeded(reg, reg[key], seen + {key})
  }

  lemma {:induction false} CallsNeededIsFewest(reg: Pages, page: PageInfo, seen: set<string>)
    requires Chase(reg, page, seen).Found?
    ensures forall calls: nat :: Recurse(reg, page, calls).StillCalling? <==> calls < CallsNeeded(reg, page, seen)
    decreases reg.Keys - seen
  {
    if page.redirect.Some? {
      var key := ToLower(page.redirect.value);
      CallsNeededIsFewest(reg, reg[key], seen + {key});
      forall calls: nat
        ensures Recurse(reg, page, calls).StillCalling? <==> calls < CallsNeeded(reg, page, seen)
      {
        if calls > 0 {
          var rest := CallsNeeded(reg, reg[key], seen + {key});
          assert Recurse(reg, reg[key], calls - 1).StillCalling? <==> calls - 1 < rest;
        }
      }
    }
  }

  lemma RankFromCalls(reg: Pages, k: string)
    requires k in reg && AliasesEnd(reg) && reg[k].redirect.Some?
    ensures ToLower(reg[k].redirect.value) in reg
    ensures CallsNeeded(reg, reg[ToLower(reg[k].redirect.value)], {}) < CallsNeeded(reg, reg[k], {})
  {
    var key := ToLower(reg[k].redirect.value);
    var far, near := CallsNeeded(reg, reg[k], {}), CallsNeeded(reg, reg[key], {});
    CallsNeededIsFewest(reg, reg[k], {});
    CallsNeededIsFewest(reg, reg[key], {});
    assert !Recurse(reg, reg[k], far).StillCalling?;
    assert !Recurse(reg, reg[key], far - 1).StillCalling?;
  }

  /** Aliases can be resolved exactly when their targets exist and they form no cycle. */
  lemma AliasesEndIffRanked(reg: Pages)
    ensures AliasesEnd(reg) <==> exists rank :: Ranked(reg, rank)
  {
    if AliasesEnd(reg) {
      var rank := map k | k in reg :: CallsNeeded(reg, reg[k], {});
      forall k | k in reg && reg[k].redirect.Some?
        ensures ToLower(reg[k].redirect.value) in reg && rank[ToLower(reg[k].redirect.value)] < rank[k]
      {
        RankFromCalls(reg, k);
      }
      assert Ranked(reg, rank);
    }
    if rank :| Ranked(reg, rank) {
      forall k | k in reg
        ensures Chase(reg, reg[k], {}).Found?
      {
        RankBoundsCalls(reg, rank, k);
        ChaseIsTheRecursion(reg, reg[k]);
      }
    }
  }

  // ----- Resolving a path -----

  /** `Broken` is a failed `expect` or an alias cycle. */
  datatype Resolution = Canonical(page: PageInfo) | Redirect(canonicalPath: string) | NotFound | Broken

  function Answer(reg: Pages, path: string, page: PageInfo): Resolution {
    match Chase(reg, page, {})
    case Found(final) =>
      if path == RelativeUrl(final) then Canonical(final) else Redirect(RelativeUrl(final))
    case Dangling => Broken
    case Loops => Broken
  }

  function StripExtension(bare: string): string {
    var lower := ToLower(bare);
    if EndsWith(lower, ".htm") then bare[..|bare| - 4]
    else if EndsWith(lower, ".html") then bare[..|bare| - 5]
    else if EndsWith(lower, ".php") then bare[..|bare| - 4]
    else bare
  }

  function WithoutSlash(path: string): string {
    if path != "" && path[0] == '/' then path[1..] else path
  }

  function Resolve(reg: Pages, path: string): Resolution {
    if path == "/" || path == "" then
      match Lookup(reg, "")
      case Some(page) => Answer(reg, path, page)
      case None => Broken
    else
      var bare := WithoutSlash(path);
      if EndsWith(bare, "/") then NotFound
      else
        var name := StripExtension(bare);
        if name == "" || EndsWith(name, "/") then NotFound
        else
          match Lookup(reg, name)
          case Some(page) => Answer(reg, path, page)
          case None => NotFound
  }

  // ----- Spellings -----

  predicate KnownExtension(low: string) {
    low == ".htm" || low == ".html" || low == ".php"
  }

  predicate IsExtension(ext: string) {
    KnownExtension(ToLower(ext))
  }

  predicate HasExtension(bare: string) {
    EndsWith(ToLower(bare), ".htm") || EndsWith(ToLower(bare), ".html") || EndsWith(ToLower(bare), ".php")
  }

  predicate IsName(name: string) {
    name != "" && !EndsWith(name, "/")
  }

  /** `path` is an optional slash, a name in any case, and an optional page extension in any case. */
  predicate SpelledAs(path: string, key: string, lead: string, name: string, ext: string) {
    && path == lead + name + ext
    && (lead == "/" || (lead == "" && name != "" && name[0] != '/'))
    && IsName(name) && ToLower(name) == key
    && (IsExtension(ext) || (ext == "" && !HasExtension(name)))
  }

  ghost predicate Spells(path: string, key: string) {
    || (key == "" && (path == "" || path == "/"))
    || exists lead, name, ext :: SpelledAs(path, key, lead, name, ext)
  }

  lemma LowerConcat(u: string, v: string)
    ensures ToLower(u + v) == ToLower(u) + ToLower(v)
  {
  }

  lemma LowerKeepsLastSlash(s: string)
    ensures EndsWith(ToLower(s), "/") <==> EndsWith(s, "/")
  {
    EndsWithChar(s, '/');
    EndsWithChar(ToLower(s), '/');
  }

  lemma EndsWithConcat(u: string, v: string)
    ensures EndsWith(u + v, v)
    ensures EndsWith(u + v, "/") <==> if v == "" then EndsWith(u, "/") else EndsWith(v, "/")
  {
    assert (u + v)[|u|..] == v;
    EndsWithChar(u + v, '/');
    EndsWithChar(v, '/');
    EndsWithChar(u, '/');
  }

  /** A page extension is a dot and letters, and no longer one ends in a shorter. */
  lemma ExtensionFacts(ext: string)
    requires IsExtension(ext)
    ensures 4 <= |ext| <= 5 && !EndsWith(ext, "/")
  {
    LowerKeepsLastSlash(ext);
    EndsWithChar(ToLower(ext), '/');
  }

  lemma LastChar(s: string, t: string)
    requires EndsWith(s, t) && t != ""
    ensures s != "" && s[|s| - 1] == t[|t| - 1]
  {
    assert s[|s| - |t|..][|t| - 1] == t[|t| - 1];
  }

  /** The last letter tells the three extensions apart. */
  lemma OnlyOneEnding(s: string, low: string, other: string)
    requires KnownExtension(low) && KnownExtension(other) && EndsWith(s, low)
    ensures EndsWith(s, other) <==> other == low
  {
    if EndsWith(s, other) {
      LastChar(s, low);
      LastChar(s, other);
    }
  }

  /** So exactly the extension written is stripped. */
  lemma StripsExtension(name: string, ext: string)
    requires IsExtension(ext)
    ensures StripExtension(name + ext) == name
  {
    var bare, low := name + ext, ToLower(ext);
    LowerConcat(name, ext);
    EndsWithConcat(ToLower(name), low);
    hide EndsWith, ToLower;
    OnlyOneEnding(ToLower(bare), low, ".htm");
    OnlyOneEnding(ToLower(bare), low, ".html");
    OnlyOneEnding(ToLower(bare), low, ".php");
    assert |low| == if low == ".html" then 5 else 4;
    assert StripExtension(bare) == bare[..|bare| - |ext|];
    assert bare[..|name|] == name;
  }

  lemma StripsOrNot(bare: string)
    ensures HasExtension(bare) ==>
              var name := StripExtension(bare); name <= bare && IsExtension(bare[|name|..])
    ensures !HasExtension(bare) ==> StripExtension(bare) == bare
  {
    if HasExtension(bare) {
      var name := StripExtension(bare);
      LowerConcat(name, bare[|name|..]);
      assert name + bare[|name|..] == bare;
      assert ToLower(bare)[|name|..] == ToLower(bare[|name|..]);
    }
  }

  lemma LeadIsRemoved(lead: string, bare: string)
    requires bare != "" && !EndsWith(bare, "/")
    requires lead == "/" || (lead == "" && bare[0] != '/')
    ensures var path := lead + bare; path != "" && path != "/" && WithoutSlash(path) == bare
  {
    var path := lead + bare;
    if lead == "/" {
      assert path[0] == '/' && path[1..] == bare;
    } else {
      assert path == bare;
    }
  }

  lemma SpelledStrips(path: string, key: string, lead: string, name: string, ext: string)
    requires SpelledAs(path, key, lead, name, ext)
    ensures path != "" && path != "/"
    ensures WithoutSlash(path) == name + ext
    ensures !EndsWith(name + ext, "/")
    ensures StripExtension(name + ext) == name
  {
    var bare := name + ext;
    EndsWithConcat(name, ext);
    if IsExtension(ext) {
      ExtensionFacts(ext);
      StripsExtension(name, ext);
    } else {
      assert bare == name;
      StripsOrNot(name);
    }
    hide EndsWith, ToLower, WithoutSlash, IsExtension, HasExtension, StripExtension;
    assert bare[0] == name[0];
    Associates(lead, name, ext);
    LeadIsRemoved(lead, bare);
  }

  /** A spelling of a key resolves to whatever is registered under that key. */
  lemma SpellingIsLookup(reg: Pages, path: string, key: string)
    requires Spells(path, key)
    ensures key in reg ==> Resolve(reg, path) == Answer(reg, path, reg[key])
    ensures key !in reg ==> Resolve(reg, path) == if key == "" then Broken else NotFound
  {
    hide StripExtension, EndsWith, WithoutSlash, IsExtension, HasExtension, Answer;
    assert ToLower("") == "";
    if lead, name, ext :| SpelledAs(path, key, lead, name, ext) {
      SpelledStrips(path, key, lead, name, ext);
    }
  }

  lemma BareIsSpelled(path: string, lead: string, bare: string)
    requires path == lead + bare && (lead == "/" || (lead == "" && bare != "" && bare[0] != '/'))
    requires IsName(StripExtension(bare))
    ensures Spells(path, ToLower(StripExtension(bare)))
  {
    var name := StripExtension(bare);
    StripsOrNot(bare);
    hide StripExtension, ToLower, IsExtension, HasExtension, EndsWith;
    var ext := bare[|name|..];
    assert bare == name + ext && bare[0] == name[0];
    Associates(lead, name, ext);
    assert SpelledAs(path, ToLower(name), lead, name, ext);
  }

  /** Whatever is not reported as missing is a spelling. */
  lemma NotMissingIsSpelled(reg: Pages, path: string)
    requires !Resolve(reg, path).NotFound?
    ensures exists key :: Spells(path, key) && (key != "" ==> key in reg)
  {
    if path == "/" || path == "" {
      assert Spells(path, "");
    } else {
      hide StripExtension, Spells, EndsWith, Answer, ToLower;
      var lead := if path[0] == '/' then "/" else "";
      assert path == lead + WithoutSlash(path);
      BareIsSpelled(path, lead, WithoutSlash(path));
    }
  }

  // ----- Well-formed registries -----

  predicate UrlSafe(slug: string) {
    '?' !in slug && '#' !in slug && IsFieldValue(slug)
  }

  ghost predicate WellFormed(reg: Pages) {
    && "" in reg
    && (forall k :: k in reg ==> k == ToLower(reg[k].slug) && !EndsWith(k, "/") && UrlSafe(reg[k].slug))
    && (forall k :: k in reg ==> (reg[k].handler.Some? <==> reg[k].redirect.None?))
    && AliasesEnd(reg)
  }

  /** Every key can be asked for. */
  lemma KeyIsSpelled(k: string)
    requires k == ToLower(k) && !EndsWith(k, "/")
    ensures Spells(if k == "" then "/" else "/" + k + ".htm", k)
  {
    assert ToLower(".htm") == ".htm";
    if k != "" {
      assert SpelledAs("/" + k + ".htm", k, "/", k, ".htm");
    }
  }

  lemma SpelledKeyBreaks(reg: Pages, path: string, key: string)
    requires Spells(path, key)
    ensures key in reg ==> (Resolve(reg, path).Broken? <==> !Chase(reg, reg[key], {}).Found?)
    ensures key !in reg ==> (Resolve(reg, path).Broken? <==> key == "")
  {
    hide Spells, Chase, Resolve;
    SpellingIsLookup(reg, path, key);
  }

  /** Which paths break resolution: none, exactly when the registry has a home page and its aliases end. */
  lemma NeverBreaksIff(reg: Pages)
    requires forall k :: k in reg ==> k == ToLower(k) && !EndsWith(k, "/")
    ensures (forall path :: !Resolve(reg, path).Broken?) <==> "" in reg && AliasesEnd(reg)
  {
    hide Spells, Resolve, Chase, EndsWith, ToLower;
    if "" in reg && AliasesEnd(reg) {
      forall path
        ensures !Resolve(reg, path).Broken?
      {
        if !Resolve(reg, path).NotFound? {
          NotMissingIsSpelled(reg, path);
          var key :| Spells(path, key) && (key != "" ==> key in reg);
          SpelledKeyBreaks(reg, path, key);
        }
      }
    }
    if forall path :: !Resolve(reg, path).Broken? {
      HomeIsAsked();
      SpelledKeyBreaks(reg, "/", "");
      forall k | k in reg
        ensures Chase(reg, reg[k], {}).Found?
      {
        var path := if k == "" then "/" else "/" + k + ".htm";
        KeyIsSpelled(k);
        SpelledKeyBreaks(reg, path, k);
        assert !Resolve(reg, path).Broken?;
      }
      assert !Resolve(reg, "/").Broken?;
    }
  }

  lemma HomeIsAsked()
    ensures Spells("/", "") && Spells("", "")
  {
  }

  /** What resolution answers comes out of the registry and is no alias. */
  lemma AnswersAreRegistered(reg: Pages, path: string)
    requires WellFormed(reg)
    ensures !Resolve(reg, path).Broken?
    ensures Resolve(reg, path).Canonical? ==>
              var page := Resolve(reg, path).page;
              page in reg.Values && page.redirect.None? && path == RelativeUrl(page)
    ensures Resolve(reg, path).Redirect? ==>
              exists page :: page in reg.Values && page.redirect.None? && path != RelativeUrl(page)
                             && Resolve(reg, path) == Redirect(RelativeUrl(page))
  {
    if !Resolve(reg, path).NotFound? {
      NotMissingIsSpelled(reg, path);
      var key :| Spells(path, key) && (key != "" ==> key in reg);
      SpellingIsLookup(reg, path, key);
      FoundIsRegistered(reg, reg[key], {});
    }
  }

  /**
   The canonical URL of a page that is no alias resolves to that page, exactly when its slug does not
   end in a slash.
  */
  lemma CanonicalUrlIsCanonical(reg: Pages, k: string)
    requires k in reg && k == ToLower(reg[k].slug) && reg[k].redirect.None?
    ensures Resolve(reg, RelativeUrl(reg[k])) == Canonical(reg[k]) <==> !EndsWith(reg[k].slug, "/")
  {
    var slug := reg[k].slug;
    var path := RelativeUrl(reg[k]);
    if slug == "" {
      assert Spells(path, k);
      SpellingIsLookup(reg, path, k);
    } else if EndsWith(slug, "/") {
      assert WithoutSlash(path) == slug + ".htm";
      assert ToLower(".htm") == ".htm";
      StripsExtension(slug, ".htm");
    } else {
      assert SpelledAs(path, k, "/", slug, ".htm") by {
        assert ToLower(".htm") == ".htm";
      }
      SpellingIsLookup(reg, path, k);
    }
  }

  /** Canonicalization is idempotent: a redirect leads to a path that is already canonical. */
  lemma RedirectLandsOnCanonical(reg: Pages, path: string)
    requires WellFormed(reg) && Resolve(reg, path).Redirect?
    ensures Resolve(reg, Resolve(reg, path).canonicalPath).Canonical?
    ensures RelativeUrl(Resolve(reg, Resolve(reg, path).canonicalPath).page) == Resolve(reg, path).canonicalPath
    ensures path != Resolve(reg, path).canonicalPath
  {
    AnswersAreRegistered(reg, path);
    var page :| page in reg.Values && page.redirect.None? && Resolve(reg, path) == Redirect(RelativeUrl(page));
    var k :| k in reg && reg[k] == page;
    LowerKeepsLastSlash(page.slug);
    CanonicalUrlIsCanonical(reg, k);
  }

  /**
   A path is answered exactly when it spells a registered key, and every spelling of one key, of an
   alias or of a page, is answered by the same page.
  */
  lemma SpellingsAreAnswered(reg: Pages, path: string)
    requires WellFormed(reg)
    ensures !Resolve(reg, path).NotFound? <==> exists key :: key in reg && Spells(path, key)
    ensures forall key :: key in reg && Spells(path, key) ==>
              var url := RelativeUrl(Chase(reg, reg[key], {}).page);
              if path == url then Resolve(reg, path).Canonical? else Resolve(reg, path) == Redirect(url)
  {
    if !Resolve(reg, path).NotFound? {
      NotMissingIsSpelled(reg, path);
    }
    forall key | key in reg && Spells(path, key)
      ensures Resolve(reg, path) == Answer(reg, path, reg[key])
    {
      SpellingIsLookup(reg, path, key);
    }
  }

  /** Two registered pages never share a canonical URL. */
  lemma CanonicalUrlsDiffer(reg: Pages, j: string, k: string)
    requires WellFormed(reg) && j in reg && k in reg && j != k
    requires reg[j].redirect.None? && reg[k].redirect.None?
    ensures RelativeUrl(reg[j]) != RelativeUrl(reg[k])
  {
    LowerKeepsLastSlash(reg[j].slug);
    LowerKeepsLastSlash(reg[k].slug);
    CanonicalUrlIsCanonical(reg, j);
    CanonicalUrlIsCanonical(reg, k);
  }

  /** The published URL of a page. */
  function Published(slug: string): string {
    if slug == "" then "/" else "/" + slug + ".htm"
  }

  lemma SlugEndsLikeKey(slug: string, k: string)
    requires k == ToLower(slug) && !EndsWith(k, "/")
    ensures !EndsWith(slug, "/") && (slug == "" <==> k == "")
  {
    LowerKeepsLastSlash(slug);
  }

  /** A published URL spells its key. */
  lemma PublishedIsSpelled(slug: string, k: string)
    requires k == ToLower(slug) && !EndsWith(k, "/")
    ensures Spells(Published(slug), k)
  {
    SlugEndsLikeKey(slug, k);
    assert ToLower(".htm") == ".htm";
    if slug != "" {
      assert SpelledAs(Published(slug), k, "/", slug, ".htm");
    }
  }

  lemma PublishedIsCanonical(reg: Pages, k: string)
    requires WellFormed(reg) && k in reg && reg[k].redirect.None?
    ensures Resolve(reg, Published(reg[k].slug)) == Canonical(reg[k])
  {
    PublishedIsSpelled(reg[k].slug, k);
    SpellingIsLookup(reg, Published(reg[k].slug), k);
    hide Resolve, Spells;
  }

  /** Which paths are canonical: `/` for the home page, and a slash, the slug and `.htm` for every other page. */
  lemma CanonicalIff(reg: Pages, path: string)
    requires WellFormed(reg)
    ensures Resolve(reg, path).Canonical? <==>
              exists k :: k in reg && reg[k].redirect.None?
                          && path == if k == "" then "/" else "/" + reg[k].slug + ".htm"
    ensures Resolve(reg, path).Redirect? ==>
              exists k :: k in reg && reg[k].redirect.None?
                          && Resolve(reg, path).canonicalPath == if k == "" then "/" else "/" + reg[k].slug + ".htm"
  {
    AnswersAreRegistered(reg, path);
    hide Resolve;
    if Resolve(reg, path).Canonical? {
      var k :| k in reg && reg[k] == Resolve(reg, path).page;
      SlugEndsLikeKey(reg[k].slug, k);
      assert path == Published(reg[k].slug);
    }
    if k :| k in reg && reg[k].redirect.None? && path == (if k == "" then "/" else "/" + reg[k].slug + ".htm") {
      SlugEndsLikeKey(reg[k].slug, k);
      PublishedIsCanonical(reg, k);
      assert path == Published(reg[k].slug);
    }
    if Resolve(reg, path).Redirect? {
      var page :| page in reg.Values && page.redirect.None? && Resolve(reg, path) == Redirect(RelativeUrl(page));
      var k :| k in reg && reg[k] == page;
      SlugEndsLikeKey(reg[k].slug, k);
      assert Resolve(reg, path).canonicalPath == Published(reg[k].slug);
    }
  }

  // ----- The shipped registry -----

  const GET_ONLY := Some(Handler(false))
  const WORDLIST := "crackstation-wordlist-" + "password-cracking-dictionary"

  function Page(slug: string, handler: Option<Handler>): PageInfo {
    PageInfo(slug, None, handler, slug)
  }

  function Alias(slug: string, target: string): PageInfo {
    PageInfo(slug, Some(target), None, "")
  }

  const SHIPPED: seq<PageInfo> := [
    Page("", Some(Handler(true))),
    Alias("index", ""),
    Page("hashing-security", GET_ONLY),
    Page("about-us", GET_ONLY),
    Page(WORDLIST, GET_ONLY),
    Alias("buy-" + WORDLIST, WORDLIST),
    Page("legal-privacy", GET_ONLY),
    Page("404", GET_ONLY)
  ]

  /** Lowercase, with none of the characters that would matter in a URL. */
  predicate PlainSlug(slug: string) {
    forall i :: 0 <= i < |slug| ==> 'a' <= slug[i] <= 'z' || '0' <= slug[i] <= '9' || slug[i] == '-'
  }

  lemma PlainSlugFacts(slug: string)
    requires PlainSlug(slug)
    ensures ToLower(slug) == slug && !EndsWith(slug, "/") && UrlSafe(slug)
  {
    EndsWithChar(slug, '/');
  }

  lemma WordlistIsPlain()
    ensures PlainSlug(WORDLIST) && |WORDLIST| == 50
  {
    assert PlainSlug("crackstation-wordlist-");
    assert PlainSlug("password-cracking-dictionary");
  }

  /** The slugs are plain, and no two are of the same length. */
  lemma ShippedSlugs(i: nat)
    requires i < |SHIPPED|
    ensures PlainSlug(SHIPPED[i].slug)
    ensures |SHIPPED[i].slug| == [0, 5, 16, 8, 50, 54, 13, 3][i]
  {
    WordlistIsPlain();
    hide WORDLIST;
    assert |SHIPPED| == 8;
    assert PlainSlug("buy-");
    assert PlainSlug("index");
    assert PlainSlug("hashing-security");
    assert PlainSlug("about-us");
    assert PlainSlug("legal-privacy");
    assert PlainSlug("404");
  }

  lemma ShippedKeys(reg: Pages, k: string) returns (i: nat)
    requires Indexes(reg, SHIPPED) && k in reg
    ensures i < |SHIPPED| && reg[k] == SHIPPED[i] && k == SHIPPED[i].slug
    ensures k == ToLower(k) && !EndsWith(k, "/") && UrlSafe(k)
  {
    hide SHIPPED;
    i :| 0 <= i < |SHIPPED| && k == ToLower(SHIPPED[i].slug);
    ShippedSlugs(i);
    PlainSlugFacts(SHIPPED[i].slug);
  }

  lemma ShippedIsIndexed(reg: Pages, i: nat)
    requires Indexes(reg, SHIPPED) && i < |SHIPPED|
    ensures SHIPPED[i].slug in reg && reg[SHIPPED[i].slug] == SHIPPED[i]
    ensures ToLower(SHIPPED[i].slug) == SHIPPED[i].slug
  {
    ShippedSlugs(i);
    PlainSlugFacts(SHIPPED[i].slug);
    hide SHIPPED;
  }

  lemma ShippedAliases(reg: Pages, i: nat)
    requires Indexes(reg, SHIPPED) && i < |SHIPPED|
    ensures Chase(reg, SHIPPED[i], {}).Found?
    ensures SHIPPED[i].handler.Some? <==> SHIPPED[i].redirect.None?
  {
    ShippedIsIndexed(reg, 0);
    ShippedIsIndexed(reg, 4);
    hide Indexes, ToLower, WORDLIST;
    assert |SHIPPED| == 8;
  }

  lemma ShippedSlugsDiffer()
    ensures DistinctSlugs(SHIPPED)
  {
    hide ToLower;
    forall i, j | 0 <= i < j < |SHIPPED|
      ensures ToLower(SHIPPED[i].slug) != ToLower(SHIPPED[j].slug)
    {
      ShippedSlugs(i);
      ShippedSlugs(j);
      assert |SHIPPED| == 8;
    }
  }

  lemma HomeIsShipped(reg: Pages)
    requires Indexes(reg, SHIPPED)
    ensures "" in reg
  {
    ShippedIsIndexed(reg, 0);
    hide Indexes;
    assert SHIPPED[0].slug == "";
  }

  /** The registry that ships is built without a panic and is well formed. */
  lemma ShippedIsWellFormed(reg: Pages)
    requires Indexes(reg, SHIPPED)
    ensures DistinctSlugs(SHIPPED)
    ensures WellFormed(reg)
  {
    hide SHIPPED, PlainSlug, Chase, Indexes, DistinctSlugs, ToLower, EndsWith, UrlSafe;
    ShippedSlugsDiffer();
    HomeIsShipped(reg);
    forall k | k in reg
      ensures k == ToLower(reg[k].slug) && !EndsWith(k, "/") && UrlSafe(reg[k].slug)
      ensures Chase(reg, reg[k], {}).Found?
      ensures reg[k].handler.Some? <==> reg[k].redirect.None?
    {
      var i := ShippedKeys(reg, k);
      ShippedAliases(reg, i);
    }
  }

  /** Pages with distinct slugs have a registry. */
  lemma {:induction false} RegistryOf(pages: seq<PageInfo>) returns (reg: Pages)
    requires DistinctSlugs(pages)
    ensures Indexes(reg, pages)
  {
    hide Indexes, DistinctSlugs, ToLower;
    if pages == [] {
      EmptyIsIndexed();
      reg := map[];
    } else {
      var n := |pages| - 1;
      PrefixesAreDistinct(pages, n);
      var before := RegistryOf(pages[..n]);
      IndexOneMore(before, pages[..n], pages[n]);
      assert pages[..n] + [pages[n]] == pages;
      reg := before[ToLower(pages[n].slug) := pages[n]];
    }
  }

  /** So there is a well-formed registry: the one that ships. */
  lemma ShippedRegistry() returns (reg: Pages)
    ensures Indexes(reg, SHIPPED) && WellFormed(reg)
  {
    ShippedSlugsDiffer();
    reg := RegistryOf(SHIPPED);
    ShippedIsWellFormed(reg);
  }

  /** Hits are counted under the slug, aliases have no counter of their own, and only the home page takes a POST. */
  lemma ShippedPages(reg: Pages, k: string)
    requires Indexes(reg, SHIPPED) && k in reg
    ensures reg[k].hitId == if reg[k].redirect.None? then k else ""
    ensures (reg[k].handler.Some? && reg[k].handler.value.acceptsPost) <==> k == ""
  {
    var i := ShippedKeys(reg, k);
    ShippedSlugs(i);
    assert |SHIPPED| == 8;
  }

  /** The URLs the site publishes. */
  const PUBLISHED: seq<string> := [
    "/", "/hashing-security.htm", "/about-us.htm", "/" + WORDLIST + ".htm", "/legal-privacy.htm", "/404.htm"
  ]

  /** The registered page behind each of them. */
  const PUBLISHED_PAGES: seq<nat> := [0, 2, 3, 4, 6, 7]

  lemma PublishedUrl(n: nat)
    requires n < |PUBLISHED|
    ensures |PUBLISHED| == |PUBLISHED_PAGES| == 6 && |SHIPPED| == 8 && PUBLISHED_PAGES[n] < |SHIPPED|
    ensures var page := SHIPPED[PUBLISHED_PAGES[n]];
            page.redirect.None? && PUBLISHED[n] == Published(page.slug)
  {
    hide WORDLIST;
    assert "/" + "hashing-security" + ".htm" == "/hashing-security.htm";
    assert "/" + "about-us" + ".htm" == "/about-us.htm";
    assert "/" + "legal-privacy" + ".htm" == "/legal-privacy.htm";
    assert "/" + "404" + ".htm" == "/404.htm";
    WordlistIsNamed();
  }

  lemma WordlistIsNamed()
    ensures WORDLIST != ""
  {
    assert |WORDLIST| == 50;
  }

  /** The shipped site serves exactly its published URLs without a redirect. */
  lemma PublishedUrlsAreCanonical(reg: Pages, path: string)
    requires Indexes(reg, SHIPPED)
    ensures Resolve(reg, path).Canonical? <==> path in PUBLISHED
  {
    ShippedIsWellFormed(reg);
    hide SHIPPED, Resolve, Indexes, PUBLISHED, PUBLISHED_PAGES, WellFormed, Published, WORDLIST;
    if path in PUBLISHED {
      var n :| 0 <= n < |PUBLISHED| && PUBLISHED[n] == path;
      PublishedUrl(n);
      ShippedIsIndexed(reg, PUBLISHED_PAGES[n]);
      PublishedIsCanonical(reg, SHIPPED[PUBLISHED_PAGES[n]].slug);
    }
    if Resolve(reg, path).Canonical? {
      var k := PageOfCanonical(reg, path);
      var i := ShippedKeys(reg, k);
      ShippedPageIsPublished(i);
    }
  }

  lemma PageOfCanonical(reg: Pages, path: string) returns (k: string)
    requires WellFormed(reg) && Resolve(reg, path).Canonical?
    ensures k in reg && reg[k].redirect.None? && path == Published(reg[k].slug)
  {
    AnswersAreRegistered(reg, path);
    hide Resolve;
    k :| k in reg && reg[k] == Resolve(reg, path).page;
  }

  lemma ShippedPageIsPublished(i: nat)
    requires i < |SHIPPED| && SHIPPED[i].redirect.None?
    ensures Published(SHIPPED[i].slug) in PUBLISHED
  {
    hide WORDLIST, Published;
    assert |SHIPPED| == 8;
    var n := if i == 0 then 0 else if i <= 4 then i - 1 else i - 2;
    PublishedUrl(n);
    assert PUBLISHED_PAGES[n] == i;
    assert PUBLISHED[n] in PUBLISHED;
  }
}
