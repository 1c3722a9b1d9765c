/** The strategy table and `getStrategy` of public/sw.js: an ordered table of rule groups,
    each a strategy and a list of URL patterns, searched for the first group of which some
    pattern matches the request's full URL. The regular expressions are written out as
    string predicates. */
module Strategies {
  import opened Text

  datatype StrategyId = NetworkFirst | CacheFirst | CacheOnly | StaleWhileRevalidate {
    /** The key of this group in the source's table. */
    function Name(): string {
      match this
      case NetworkFirst => "networkFirst"
      case CacheFirst => "cacheFirst"
      case CacheOnly => "cacheOnly"
      case StaleWhileRevalidate => "staleWhileRevalidate"
    }
  }

  /** The shapes of regular expression the table uses. */
  datatype Pattern =
    | EndsWithAny(suffixes: seq<string>)      // /\.css$/, /\.woff2?$/, /\.(?:png|jpg|...)$/
    | WholeUrl(path: string, slash: bool)     // /^\/$/ and, with an optional '/', /^\/blog\/?$/
    | OneSegmentUnder(prefix: string)         // /^\/blog\/[^/]+\/?$/
    | ContainsText(text: string)              // /\/_astro\//
    | HashedAsset                             // /\/assets\/.*\.[a-f0-9]{8}\./

  predicate IsLowerHex(c: char) {
    ('0' <= c <= '9') || ('a' <= c <= 'f')
  }

  /** The characters the regular-expression `.` does not match. */
  predicate IsLineTerminator(c: char) {
    c == '\n' || c == '\r' || c == '\U{2028}' || c == '\U{2029}'
  }

  /** `^` + prefix + `[^/]+\/?$`: the prefix, then one non-empty segment without '/', then
      at most one '/'. */
  predicate OneSegment(url: string, prefix: string) {
    StartsWith(url, prefix) &&
    var rest := url[|prefix|..];
    var segment := if rest != [] && rest[|rest| - 1] == '/' then rest[..|rest| - 1] else rest;
    segment != [] && forall i :: 0 <= i < |segment| ==> segment[i] != '/'
  }

  /** `\.[a-f0-9]{8}\.` starts at position j. */
  predicate HashAt(url: string, j: nat) {
    && j + 10 <= |url|
    && url[j] == '.'
    && (forall m :: j + 1 <= m < j + 9 ==> IsLowerHex(url[m]))
    && url[j + 9] == '.'
  }

  /** `.*\.[a-f0-9]{8}\.` matches from position k on. */
  predicate HashFrom(url: string, k: nat) {
    exists j: nat | k <= j <= |url| ::
      (forall m :: k <= m < j ==> !IsLineTerminator(url[m])) && HashAt(url, j)
  }

  /** `/\/assets\/.*\.[a-f0-9]{8}\./` matches somewhere in the URL. */
  predicate HasHashedAsset(url: string) {
    exists i: nat | i <= |url| :: OccursAt(url, "/assets/", i) && HashFrom(url, i + 8)
  }

  /** Whether one pattern of the table matches the URL. */
  predicate Matches(p: Pattern, url: string) {
    match p
    case EndsWithAny(suffixes) => exists k :: 0 <= k < |suffixes| && EndsWith(url, suffixes[k])
    case WholeUrl(path, slash) => url == path || (slash && url == path + "/")
    case OneSegmentUnder(prefix) => OneSegment(url, prefix)
    case ContainsText(text) => Contains(url, text)
    case HashedAsset => HasHashedAsset(url)
  }

  /** Whether some pattern of a group matches the URL. */
  predicate AnyMatches(patterns: seq<Pattern>, url: string) {
    exists k :: 0 <= k < |patterns| && Matches(patterns[k], url)
  }

  datatype Rule = Rule(strategy: StrategyId, patterns: seq<Pattern>)

  const PagePatterns: seq<Pattern> := [EndsWithAny([".html"]), WholeUrl("/", false), WholeUrl("/blog", true),
                                       WholeUrl("/about", true), OneSegmentUnder("/blog/")]
  const StaticAssetPatterns: seq<Pattern> := [EndsWithAny([".css"]), EndsWithAny([".js"]), EndsWithAny([".woff", ".woff2"]),
                                              EndsWithAny([".ttf"]), EndsWithAny([".otf"])]
  const ImmutablePatterns: seq<Pattern> := [ContainsText("/_astro/"), HashedAsset]
  const ImageSuffixes: seq<string> := [".png", ".jpg", ".jpeg", ".svg", ".gif", ".webp", ".avif"]

  /** `CACHE_STRATEGIES`, in the order in which `Object.entries` lists its keys. */
  const Table: seq<Rule> := [
    Rule(NetworkFirst, PagePatterns),
    Rule(CacheFirst, StaticAssetPatterns),
    Rule(CacheOnly, ImmutablePatterns),
    Rule(StaleWhileRevalidate, [EndsWithAny(ImageSuffixes)])
  ]

  /** The loop of `getStrategy`: the index of the first rule with a matching pattern, or
      the number of rules when none matches. */
  function FirstMatch(rules: seq<Rule>, url: string): (k: nat)
    ensures k <= |rules|
    ensures k < |rules| ==> AnyMatches(rules[k].patterns, url)
    ensures forall j :: 0 <= j < k ==> !AnyMatches(rules[j].patterns, url)
  {
    if rules == [] then 0
    else if AnyMatches(rules[0].patterns, url) then 0
    else 1 + FirstMatch(rules[1..], url)
  }

  // ---- The four groups, written out by hand ----

  predicate IsPageUrl(url: string) {
    || EndsWith(url, ".html")
    || url == "/" || url == "/blog" || url == "/blog/" || url == "/about" || url == "/about/"
    || OneSegment(url, "/blog/")
  }

  predicate IsStaticAssetUrl(url: string) {
    || EndsWith(url, ".css") || EndsWith(url, ".js") || EndsWith(url, ".woff")
    || EndsWith(url, ".woff2") || EndsWith(url, ".ttf") || EndsWith(url, ".otf")
  }

  predicate IsImmutableUrl(url: string) {
    Contains(url, "/_astro/") || HasHashedAsset(url)
  }

  predicate IsImageUrl(url: string) {
    || EndsWith(url, ".png") || EndsWith(url, ".jpg") || EndsWith(url, ".jpeg")
    || EndsWith(url, ".svg") || EndsWith(url, ".gif") || EndsWith(url, ".webp")
    || EndsWith(url, ".avif")
  }

  // Generic facts about `some` over short pattern lists; they keep the literal tables out of
  // the quantifiers.

  lemma AnyOfTwo(a: Pattern, b: Pattern, url: string)
    ensures AnyMatches([a, b], url) <==> Matches(a, url) || Matches(b, url)
  {
    if Matches(a, url) { assert [a, b][0] == a; }
    if Matches(b, url) { assert [a, b][1] == b; }
  }

  lemma AnyOfFive(a: Pattern, b: Pattern, c: Pattern, d: Pattern, e: Pattern, url: string)
    ensures AnyMatches([a, b, c, d, e], url) <==>
      Matches(a, url) || Matches(b, url) || Matches(c, url) || Matches(d, url) || Matches(e, url)
  {
    var ps := [a, b, c, d, e];
    if Matches(a, url) { assert ps[0] == a; }
    if Matches(b, url) { assert ps[1] == b; }
    if Matches(c, url) { assert ps[2] == c; }
    if Matches(d, url) { assert ps[3] == d; }
    if Matches(e, url) { assert ps[4] == e; }
  }

  lemma OneSuffix(x: string, url: string)
    ensures Matches(EndsWithAny([x]), url) <==> EndsWith(url, x)
  {
    if EndsWith(url, x) { assert [x][0] == x; }
  }

  lemma TwoSuffixes(x: string, y: string, url: string)
    ensures Matches(EndsWithAny([x, y]), url) <==> EndsWith(url, x) || EndsWith(url, y)
  {
    if EndsWith(url, x) { assert [x, y][0] == x; }
    if EndsWith(url, y) { assert [x, y][1] == y; }
  }

  lemma SevenSuffixes(s0: string, s1: string, s2: string, s3: string, s4: string, s5: string, s6: string, url: string)
    ensures Matches(EndsWithAny([s0, s1, s2, s3, s4, s5, s6]), url) <==>
      EndsWith(url, s0) || EndsWith(url, s1) || EndsWith(url, s2) || EndsWith(url, s3) ||
      EndsWith(url, s4) || EndsWith(url, s5) || EndsWith(url, s6)
  {
    var sf := [s0, s1, s2, s3, s4, s5, s6];
    if EndsWith(url, s0) { assert sf[0] == s0; }
    if EndsWith(url, s1) { assert sf[1] == s1; }
    if EndsWith(url, s2) { assert sf[2] == s2; }
    if EndsWith(url, s3) { assert sf[3] == s3; }
    if EndsWith(url, s4) { assert sf[4] == s4; }
    if EndsWith(url, s5) { assert sf[5] == s5; }
    if EndsWith(url, s6) { assert sf[6] == s6; }
  }

  lemma PageGroup(url: string)
    ensures AnyMatches(PagePatterns, url) <==> IsPageUrl(url)
  {
    AnyOfFive(EndsWithAny([".html"]), WholeUrl("/", false), WholeUrl("/blog", true),
              WholeUrl("/about", true), OneSegmentUnder("/blog/"), url);
    OneSuffix(".html", url);
  }

  lemma StaticAssetGroup(url: string)
    ensures AnyMatches(StaticAssetPatterns, url) <==> IsStaticAssetUrl(url)
  {
    AnyOfFive(EndsWithAny([".css"]), EndsWithAny([".js"]), EndsWithAny([".woff", ".woff2"]),
              EndsWithAny([".ttf"]), EndsWithAny([".otf"]), url);
    OneSuffix(".css", url);
    OneSuffix(".js", url);
    TwoSuffixes(".woff", ".woff2", url);
    OneSuffix(".ttf", url);
    OneSuffix(".otf", url);
  }

  lemma ImmutableGroup(url: string)
    ensures AnyMatches(ImmutablePatterns, url) <==> IsImmutableUrl(url)
  {
    AnyOfTwo(ContainsText("/_astro/"), HashedAsset, url);
  }

  lemma ImageGroup(url: string)
    ensures AnyMatches([EndsWithAny(ImageSuffixes)], url) <==> IsImageUrl(url)
  {
    SevenSuffixes(".png", ".jpg", ".jpeg", ".svg", ".gif", ".webp", ".avif", url);
    var p := EndsWithAny(ImageSuffixes);
    if Matches(p, url) { assert [p][0] == p; }
  }

  /** The search over a table of four rules, unrolled. */
  lemma FirstOfFour(rules: seq<Rule>, url: string)
    requires |rules| == 4
    ensures FirstMatch(rules, url) ==
      if AnyMatches(rules[0].patterns, url) then 0
      else if AnyMatches(rules[1].patterns, url) then 1
      else if AnyMatches(rules[2].patterns, url) then 2
      else if AnyMatches(rules[3].patterns, url) then 3
      else 4
  {
    var r1 := rules[1..];
    var r2 := r1[1..];
    var r3 := r2[1..];
    assert r1[0] == rules[1] && r2[0] == rules[2] && r3[0] == rules[3] && r3[1..] == [];
  }

  /** The strategy `getStrategy` picks for a request, from the request's full URL: the
      groups are tried in table order, so the first group that matches wins, and an unmatched
      URL gets `networkFirst`. */
  function GetStrategy(url: string): (s: StrategyId)
    ensures s ==
      if IsPageUrl(url) then NetworkFirst
      else if IsStaticAssetUrl(url) then CacheFirst
      else if IsImmutableUrl(url) then CacheOnly
      else if IsImageUrl(url) then StaleWhileRevalidate
      else NetworkFirst
  {
    FirstOfFour(Table, url);
    PageGroup(url);
    StaticAssetGroup(url);
    ImmutableGroup(url);
    ImageGroup(url);
    var k := FirstMatch(Table, url);
    if k < |Table| then Table[k].strategy else NetworkFirst
  }

  // ---- Order beats specificity ----

  lemma LastChar(url: string, suffix: string)
    requires EndsWith(url, suffix) && suffix != []
    ensures url[|url| - 1] == suffix[|suffix| - 1]
  {
    assert url[|url| - |suffix|..][|suffix| - 1] == url[|url| - 1];
  }

  /** Every URL ending in ".html" is fetched network first, whatever else it matches. */
  lemma HtmlIsNetworkFirst(url: string)
    requires EndsWith(url, ".html")
    ensures GetStrategy(url) == NetworkFirst
  {
  }

  /** A URL of one segment under "/blog/" that contains "/_astro/" ends in '/'. */
  lemma BlogSegmentWithAstro(url: string)
    requires OneSegment(url, "/blog/") && Contains(url, "/_astro/")
    ensures url[|url| - 1] == '/'
  {
    var i: nat :| i <= |url| && OccursAt(url, "/_astro/", i);
    assert url[i + 7] == "/_astro/"[7] == '/';
    var rest := url[6..];
    assert rest[i + 1] == url[i + 7];
  }

  lemma NotPageByLastChar(url: string, suffix: string)
    requires EndsWith(url, suffix) && suffix != []
    requires suffix[|suffix| - 1] != 'l' && suffix[|suffix| - 1] != '/'
    requires Contains(url, "/_astro/")
    ensures !IsPageUrl(url)
  {
    LastChar(url, suffix);
    if EndsWith(url, ".html") { LastChar(url, ".html"); }
    if OneSegment(url, "/blog/") { BlogSegmentWithAstro(url); }
  }

  /** A script or style sheet under "/_astro/" goes to `cacheFirst`, not `cacheOnly`: the
      second group is tried before the third. */
  lemma AstroScriptIsCacheFirst(url: string)
    requires Contains(url, "/_astro/")
    requires EndsWith(url, ".js") || EndsWith(url, ".css")
    ensures GetStrategy(url) == CacheFirst
  {
    if EndsWith(url, ".js") { NotPageByLastChar(url, ".js"); }
    else { NotPageByLastChar(url, ".css"); }
  }

  /** An image under "/_astro/" goes to `cacheOnly`, not `staleWhileRevalidate`. */
  lemma AstroImageIsCacheOnly(url: string)
    requires Contains(url, "/_astro/") && EndsWith(url, ".png")
    ensures GetStrategy(url) == CacheOnly
  {
    NotPageByLastChar(url, ".png");
    LastChar(url, ".png");
    if EndsWith(url, ".css") { LastChar(url, ".css"); }
    if EndsWith(url, ".js") { LastChar(url, ".js"); }
    if EndsWith(url, ".woff") { LastChar(url, ".woff"); }
    if EndsWith(url, ".woff2") { LastChar(url, ".woff2"); }
    if EndsWith(url, ".ttf") { LastChar(url, ".ttf"); }
    if EndsWith(url, ".otf") { LastChar(url, ".otf"); }
  }

  /** The anchored patterns name paths, but `getStrategy` tests the full URL: one that does
      not start with '/' (as every absolute URL) is a page only by its ".html" suffix. */
  lemma AnchoredPatternsNeedPath(url: string)
    requires url == [] || url[0] != '/'
    ensures IsPageUrl(url) <==> EndsWith(url, ".html")
  {
  }

  /** Any URL of the form host + "/assets/" + name + "." + eight hex digits + "." + rest
      matches the hashed-asset pattern. */
  lemma HashedAssetShape(host: string, name: string, hash: string, rest: string)
    requires forall m :: 0 <= m < |name| ==> !IsLineTerminator(name[m])
    requires |hash| == 8 && forall m :: 0 <= m < 8 ==> IsLowerHex(hash[m])
    ensures HasHashedAsset(host + "/assets/" + name + "." + hash + "." + rest)
  {
    var url := host + "/assets/" + name + "." + hash + "." + rest;
    var i := |host|;
    var j := i + 8 + |name|;
    assert url[i..i + 8] == "/assets/";
    assert OccursAt(url, "/assets/", i);
    assert forall m :: i + 8 <= m < j ==> url[m] == name[m - i - 8];
    assert forall m :: j + 1 <= m < j + 9 ==> url[m] == hash[m - j - 1];
    assert url[j] == '.' && url[j + 9] == '.';
    assert HashAt(url, j);
    assert HashFrom(url, i + 8);
  }

  /** "https://blog.example/assets/app.0123abcd.js", written in the pieces the pattern sees. */
  const HashedScriptUrl: string := "https://blog.example" + "/assets/" + "app" + "." + "0123abcd" + "." + "js"

  lemma HashedScriptMatchesHashPattern()
    ensures HasHashedAsset(HashedScriptUrl)
  {
    var hash := "0123abcd";
    assert forall m :: 0 <= m < 8 ==> IsLowerHex(hash[m]);
    HashedAssetShape("https://blog.example", "app", hash, "js");
  }

  /** Every absolute URL ending in ".js" or ".css" is cached first, whatever else it
      matches: a content-hashed name under "/assets/" or a path under "/_astro/" never
      reaches the third group. */
  lemma ScriptIsCacheFirst(url: string)
    requires url == [] || url[0] != '/'
    requires EndsWith(url, ".js") || EndsWith(url, ".css")
    ensures GetStrategy(url) == CacheFirst
  {
    AnchoredPatternsNeedPath(url);
    if EndsWith(url, ".js") { LastChar(url, ".js"); } else { LastChar(url, ".css"); }
    if EndsWith(url, ".html") { LastChar(url, ".html"); }
  }

  /** A content-hashed script under "/assets/" is cached first, not kept permanently: the
      ".js" rule of the second group comes before the hashed-asset rule of the third. */
  lemma HashedScriptIsCacheFirst()
    ensures HasHashedAsset(HashedScriptUrl)
    ensures GetStrategy(HashedScriptUrl) == CacheFirst
  {
    var url := HashedScriptUrl;
    HashedScriptMatchesHashPattern();
    assert EndsWith(url, ".js");
    ScriptIsCacheFirst(url);
  }
}
