/** `slugify` of src/lib/utils.ts: a fixed chain of string rewrites turning a title into a
    URL path segment. Each stage below is one call of the chain. */
module Slugify {
  import opened Text

  predicate NoUpper(s: string) {
    forall i :: 0 <= i < |s| ==> !IsUpper(s[i])
  }

  predicate WordOrDash(c: char) {
    IsWord(c) || c == '-'
  }

  predicate AllWordOrDash(s: string) {
    forall i :: 0 <= i < |s| ==> WordOrDash(s[i])
  }

  /** The characters a slug may hold: `a-z`, `0-9`, `_` and `-`. */
  predicate IsSlugChar(c: char) {
    ('a' <= c <= 'z') || ('0' <= c <= '9') || c == '_' || c == '-'
  }

  predicate NoDoubleDash(s: string) {
    forall i :: 0 <= i < |s| - 1 ==> !(s[i] == '-' && s[i + 1] == '-')
  }

  /** What every result of `slugify` looks like. */
  predicate IsSlug(s: string) {
    && (forall i :: 0 <= i < |s| ==> IsSlugChar(s[i]))
    && (s == [] || (s[0] != '-' && s[|s| - 1] != '-'))
    && NoDoubleDash(s)
  }

  // ---- What the chain keeps ----

  /** The word characters of `s`, in their order: what a slug keeps of its title. */
  function WordChars(s: string): string {
    if s == [] then [] else (if IsWord(s[0]) then [s[0]] else []) + WordChars(s[1..])
  }

  /** The characters of `s` other than dashes, in their order. */
  function DropDashes(s: string): string {
    if s == [] then [] else (if s[0] != '-' then [s[0]] else []) + DropDashes(s[1..])
  }

  function DashCount(s: string): nat {
    if s == [] then 0 else (if s[0] == '-' then 1 else 0) + DashCount(s[1..])
  }

  lemma WordCharsCons(c: char, t: string)
    ensures WordChars([c] + t) == (if IsWord(c) then [c] else []) + WordChars(t)
    ensures DashCount([c] + t) == (if c == '-' then 1 else 0) + DashCount(t)
  {
    assert ([c] + t)[1..] == t;
  }

  lemma DropDashesCons(c: char, t: string)
    ensures DropDashes([c] + t) == (if c != '-' then [c] else []) + DropDashes(t)
  {
    assert ([c] + t)[1..] == t;
  }

  lemma {:induction false} WordCharsAppend(a: string, b: string)
    ensures WordChars(a + b) == WordChars(a) + WordChars(b)
  {
    if a == [] {
      assert a + b == b;
    } else {
      assert a == [a[0]] + a[1..];
      assert a + b == [a[0]] + (a[1..] + b);
      WordCharsCons(a[0], a[1..] + b);
      WordCharsCons(a[0], a[1..]);
      WordCharsAppend(a[1..], b);
    }
  }

  /** A text without word characters has none to keep. */
  lemma {:induction false} NoWordChars(s: string, lo: nat)
    requires lo <= |s| && forall i :: lo <= i < |s| ==> !IsWord(s[i])
    ensures WordChars(s[lo..]) == []
    decreases |s| - lo
  {
    if lo < |s| {
      var t := s[lo..];
      assert t[0] == s[lo] && t[1..] == s[lo + 1..];
      NoWordChars(s, lo + 1);
    }
  }

  /** Cutting a text in two splits its word characters the same way. */
  lemma WordCharsCut(s: string, k: nat)
    requires k <= |s|
    ensures WordChars(s) == WordChars(s[..k]) + WordChars(s[k..])
  {
    var a, b := s[..k], s[k..];
    WordCharsAppend(a, b);
    assert a + b == s;
  }

  lemma WordCharsDropHead(s: string, lo: nat)
    requires lo <= |s| && forall i :: 0 <= i < lo ==> !IsWord(s[i])
    ensures WordChars(s[lo..]) == WordChars(s)
  {
    var head := s[..lo];
    assert forall i :: 0 <= i < |head| ==> head[i] == s[i];
    NoWordChars(head, 0);
    assert head[0..] == head;
    WordCharsCut(s, lo);
  }

  lemma WordCharsDropTail(s: string, hi: nat)
    requires hi <= |s| && forall i :: hi <= i < |s| ==> !IsWord(s[i])
    ensures WordChars(s[..hi]) == WordChars(s)
  {
    NoWordChars(s, hi);
    WordCharsCut(s, hi);
    assert WordChars(s[..hi]) + [] == WordChars(s[..hi]);
  }

  /** Cutting away characters that are not word characters at both ends keeps every word
      character. */
  lemma WordCharsOfSlice(s: string, lo: nat, hi: nat)
    requires lo <= hi <= |s|
    requires forall i :: 0 <= i < lo ==> !IsWord(s[i])
    requires forall i :: hi <= i < |s| ==> !IsWord(s[i])
    ensures WordChars(s[lo..hi]) == WordChars(s)
  {
    var pre := s[..hi];
    WordCharsDropTail(s, hi);
    assert forall i :: 0 <= i < lo ==> pre[i] == s[i];
    WordCharsDropHead(pre, lo);
    assert pre[lo..] == s[lo..hi];
  }

  /** Removing dashes removes no word character. */
  lemma {:induction false} WordCharsOfDropDashes(s: string)
    ensures WordChars(DropDashes(s)) == WordChars(s)
  {
    if s != [] {
      WordCharsOfDropDashes(s[1..]);
      assert s == [s[0]] + s[1..];
      WordCharsCons(s[0], s[1..]);
      if s[0] != '-' {
        WordCharsCons(s[0], DropDashes(s[1..]));
      } else {
        assert DropDashes(s) == DropDashes(s[1..]);
      }
    }
  }

  /** The first stage: every character lower-cased. */
  function LowerAll(s: string): (r: string)
    ensures |r| == |s| && NoUpper(r)
    ensures forall i :: 0 <= i < |s| ==> r[i] == Lower(s[i])
  {
    seq(|s|, i requires 0 <= i < |s| => Lower(s[i]))
  }

  /** The stage after trimming: every maximal run of white space becomes one dash. */
  function DashSpaces(s: string): (r: string)
    ensures NoSpace(r)
    ensures NoUpper(s) ==> NoUpper(r)
    decreases |s|
  {
    if s == [] then []
    else if IsSpace(s[0]) then "-" + DashSpaces(TrimStart(s))
    else [s[0]] + DashSpaces(s[1..])
  }

  /** The stage that drops every character other than a word character or a dash. */
  function KeepWordsAndDashes(s: string): (r: string)
    ensures AllWordOrDash(r)
    ensures NoUpper(s) ==> NoUpper(r)
    ensures WordChars(r) == WordChars(s)
    ensures DashCount(r) == DashCount(s)
  {
    if s == [] then []
    else if WordOrDash(s[0]) then
      WordCharsCons(s[0], KeepWordsAndDashes(s[1..]));
      WordCharsCons(s[0], s[1..]);
      [s[0]] + KeepWordsAndDashes(s[1..])
    else
      WordCharsCons(s[0], s[1..]);
      KeepWordsAndDashes(s[1..])
  }

  /** The stage that turns every run of two or more dashes into one dash. */
  function CollapseDashes(s: string): (r: string)
    ensures NoDoubleDash(r)
    ensures s != [] ==> r != [] && r[0] == s[0]
    ensures (forall i :: 0 <= i < |s| ==> IsSlugChar(s[i])) ==> (forall i :: 0 <= i < |r| ==> IsSlugChar(r[i]))
    ensures DropDashes(r) == DropDashes(s)
  {
    if |s| >= 2 && s[0] == '-' && s[1] == '-' then CollapseDashes(s[1..])
    else if s == [] then []
    else
      DropDashesCons(s[0], CollapseDashes(s[1..]));
      DropDashesCons(s[0], s[1..]);
      [s[0]] + CollapseDashes(s[1..])
  }

  /** The stage that drops the dashes at the start. */
  function TrimLeadingDashes(s: string): (r: string)
    ensures |r| <= |s| && r == s[|s| - |r|..]
    ensures forall i :: 0 <= i < |s| - |r| ==> s[i] == '-'
    ensures r == [] || r[0] != '-'
  {
    if s != [] && s[0] == '-' then
      var r := TrimLeadingDashes(s[1..]);
      assert s[1..][|s| - 1 - |r|..] == s[|s| - |r|..];
      r
    else s
  }

  /** The last stage: it drops the dashes at the end. */
  function TrimTrailingDashes(s: string): (r: string)
    ensures |r| <= |s| && r == s[..|r|]
    ensures forall i :: |r| <= i < |s| ==> s[i] == '-'
    ensures r == [] || r[|r| - 1] != '-'
  {
    if s != [] && s[|s| - 1] == '-' then TrimTrailingDashes(s[..|s| - 1]) else s
  }

  /** The whole chain (`toString` is the identity on strings). */
  function Slugify(text: string): (r: string)
    ensures IsSlug(r)
  {
    var lowered := LowerAll(text);
    var kept := KeepWordsAndDashes(DashSpaces(Trim(lowered)));
    KeptAreSlugs(lowered);
    TrimTrailingDashes(TrimLeadingDashes(CollapseDashes(kept)))
  }

  /** The stages after lower-casing end in a slug. */
  lemma KeptAreSlugs(lowered: string)
    requires NoUpper(lowered)
    ensures IsSlug(TrimTrailingDashes(TrimLeadingDashes(CollapseDashes(KeepWordsAndDashes(DashSpaces(Trim(lowered)))))))
  {
    TrimNoUpper(lowered);
    var kept := KeepWordsAndDashes(DashSpaces(Trim(lowered)));
    KeptAreSlugChars(kept);
    var collapsed := CollapseDashes(kept);
    var front := TrimLeadingDashes(collapsed);
    TrimDashesIsSlug(collapsed, front, TrimTrailingDashes(front));
  }

  lemma TrimNoUpper(s: string)
    requires NoUpper(s)
    ensures NoUpper(Trim(s))
  {
    var t := TrimStart(s);
    var u := TrimEnd(t);
    forall i | 0 <= i < |u| ensures !IsUpper(u[i]) {
      var j := |s| - |t| + i;
      assert u[i] == t[i] == s[j];
    }
  }

  lemma KeptAreSlugChars(s: string)
    requires AllWordOrDash(s) && NoUpper(s)
    ensures forall i :: 0 <= i < |s| ==> IsSlugChar(s[i])
  {
    forall i | 0 <= i < |s| ensures IsSlugChar(s[i]) {
      assert WordOrDash(s[i]) && !IsUpper(s[i]);
    }
  }

  /** A slice of a string of slug characters without a double dash is a slug when it
      neither starts nor ends with a dash. */
  lemma SliceIsSlug(s: string, lo: nat, hi: nat)
    requires lo <= hi <= |s|
    requires NoDoubleDash(s) && forall i :: 0 <= i < |s| ==> IsSlugChar(s[i])
    requires lo < hi ==> s[lo] != '-' && s[hi - 1] != '-'
    ensures IsSlug(s[lo..hi])
  {
    var r := s[lo..hi];
    forall i | 0 <= i < |r| ensures IsSlugChar(r[i]) {
      assert r[i] == s[lo + i];
    }
    forall i | 0 <= i < |r| - 1 ensures !(r[i] == '-' && r[i + 1] == '-') {
      assert r[i] == s[lo + i] && r[i + 1] == s[lo + i + 1];
    }
  }

  /** Dropping the dashes at both ends of a string of slug characters without a double
      dash leaves a slug: `front` is what `TrimLeadingDashes` keeps, `r` what
      `TrimTrailingDashes` then keeps. */
  lemma TrimDashesIsSlug(s: string, front: string, r: string)
    requires NoDoubleDash(s) && forall i :: 0 <= i < |s| ==> IsSlugChar(s[i])
    requires |front| <= |s| && front == s[|s| - |front|..] && (front == [] || front[0] != '-')
    requires |r| <= |front| && r == front[..|r|] && (r == [] || r[|r| - 1] != '-')
    ensures IsSlug(r)
  {
    var d := |s| - |front|;
    var k := |r|;
    assert r == s[d..d + k];
    assert r != [] ==> s[d] == front[0] && s[d + k - 1] == r[k - 1];
    SliceIsSlug(s, d, d + k);
  }

  // ---- Each stage leaves a slug as it is ----

  lemma LowerAllKeeps(s: string)
    requires NoUpper(s)
    ensures LowerAll(s) == s
  {
  }

  lemma {:induction false} DashSpacesKeeps(s: string)
    requires NoSpace(s)
    ensures DashSpaces(s) == s
    decreases |s|
  {
    if s != [] {
      DashSpacesKeeps(s[1..]);
    }
  }

  lemma {:induction false} KeepWordsAndDashesKeeps(s: string)
    requires AllWordOrDash(s)
    ensures KeepWordsAndDashes(s) == s
  {
    if s != [] {
      KeepWordsAndDashesKeeps(s[1..]);
    }
  }

  lemma {:induction false} CollapseDashesKeeps(s: string)
    requires NoDoubleDash(s)
    ensures CollapseDashes(s) == s
  {
    if s != [] {
      CollapseDashesKeeps(s[1..]);
    }
  }

  /** A slug runs unchanged through every stage of the chain. */
  lemma SlugifyKeepsSlugs(t: string)
    requires IsSlug(t)
    ensures Slugify(t) == t
  {
    LowerAllKeeps(t);
    assert NoSpace(t) by {
      forall i | 0 <= i < |t| ensures !IsSpace(t[i]) {
        assert IsSlugChar(t[i]);
      }
    }
    TrimKeeps(t);
    DashSpacesKeeps(t);
    DashStagesKeepSlugs(t);
  }

  /** The stages after white space has become dashes leave a slug as it is. */
  lemma DashStagesKeepSlugs(t: string)
    requires IsSlug(t)
    ensures TrimTrailingDashes(TrimLeadingDashes(CollapseDashes(KeepWordsAndDashes(t)))) == t
  {
    assert AllWordOrDash(t) by {
      forall i | 0 <= i < |t| ensures WordOrDash(t[i]) { assert IsSlugChar(t[i]); }
    }
    KeepWordsAndDashesKeeps(t);
    CollapseDashesKeeps(t);
    assert TrimLeadingDashes(t) == t;
  }

  /** `slugify` is idempotent. */
  lemma SlugifyIdempotent(s: string)
    ensures Slugify(Slugify(s)) == Slugify(s)
  {
    SlugifyKeepsSlugs(Slugify(s));
  }

  // ---- White space between words ----

  lemma DashSpacesRun(w: string, b: string)
    requires w != [] && forall i :: 0 <= i < |w| ==> IsSpace(w[i])
    requires b == [] || !IsSpace(b[0])
    ensures DashSpaces(w + b) == "-" + DashSpaces(b)
  {
    assert (w + b)[0] == w[0];
    TrimStartSkips(w, b);
  }

  lemma DashSpacesCons(x: char, t: string)
    requires !IsSpace(x)
    ensures DashSpaces([x] + t) == [x] + DashSpaces(t)
  {
    assert ([x] + t)[1..] == t;
  }

  lemma {:induction false} DashSpacesAppend(a: string, c: string)
    requires NoSpace(a)
    ensures DashSpaces(a + c) == a + DashSpaces(c)
    decreases |a|
  {
    if a == [] {
      assert a + c == c;
    } else {
      var tail := a[1..];
      assert !IsSpace(a[0]);
      assert NoSpace(tail) by {
        forall i | 0 <= i < |tail| ensures !IsSpace(tail[i]) { assert tail[i] == a[i + 1]; }
      }
      assert a + c == [a[0]] + (tail + c);
      DashSpacesCons(a[0], tail + c);
      DashSpacesAppend(tail, c);
      assert [a[0]] + (tail + DashSpaces(c)) == a + DashSpaces(c);
    }
  }

  lemma SlugNoSpace(a: string)
    requires IsSlug(a)
    ensures NoSpace(a) && NoUpper(a)
  {
    forall i | 0 <= i < |a| ensures !IsSpace(a[i]) && !IsUpper(a[i]) { assert IsSlugChar(a[i]); }
  }

  /** Two non-empty slugs joined by one dash form a slug. */
  lemma SlugJoin(a: string, b: string)
    requires IsSlug(a) && IsSlug(b) && a != [] && b != []
    ensures IsSlug(a + "-" + b)
  {
    var t := a + "-" + b;
    forall i | 0 <= i < |t| - 1 ensures !(t[i] == '-' && t[i + 1] == '-') {
      if i < |a| - 1 { assert t[i] == a[i] && t[i + 1] == a[i + 1]; }
      else if i == |a| - 1 { assert t[i] == a[|a| - 1]; }
      else if i == |a| { assert t[i + 1] == b[0]; }
      else { assert t[i] == b[i - |a| - 1] && t[i + 1] == b[i - |a|]; }
    }
    forall i | 0 <= i < |t| ensures IsSlugChar(t[i]) {
      if i < |a| { assert t[i] == a[i]; }
      else if i > |a| { assert t[i] == b[i - |a| - 1]; }
    }
    assert t[|t| - 1] == b[|b| - 1];
  }

  lemma JoinNoUpper(a: string, w: string, b: string)
    requires IsSlug(a) && IsSlug(b)
    requires forall i :: 0 <= i < |w| ==> IsSpace(w[i])
    ensures NoUpper(a + w + b)
  {
    var s := a + w + b;
    SlugNoSpace(a);
    SlugNoSpace(b);
    forall i | 0 <= i < |s| ensures !IsUpper(s[i]) {
      if i < |a| { assert s[i] == a[i]; }
      else if i < |a| + |w| { assert s[i] == w[i - |a|]; }
      else { assert s[i] == b[i - |a| - |w|]; }
    }
  }

  /** The lowered, trimmed and dashed form of two slugs around a run of white space. */
  lemma DashedJoin(a: string, w: string, b: string)
    requires IsSlug(a) && IsSlug(b) && a != [] && b != []
    requires w != [] && forall i :: 0 <= i < |w| ==> IsSpace(w[i])
    ensures DashSpaces(Trim(LowerAll(a + w + b))) == a + "-" + b
  {
    var s := a + w + b;
    SlugNoSpace(a);
    SlugNoSpace(b);
    JoinNoUpper(a, w, b);
    LowerAllKeeps(s);
    assert s[0] == a[0] && s[|s| - 1] == b[|b| - 1];
    TrimKeeps(s);
    Assoc(a, w, b);
    calc {
      DashSpaces(s);
      { DashSpacesAppend(a, w + b); }
      a + DashSpaces(w + b);
      { DashSpacesRun(w, b); }
      a + ("-" + DashSpaces(b));
      { DashSpacesKeeps(b); Assoc(a, "-", b); }
      a + "-" + b;
    }
  }

  /** A run of white space between two slugs becomes exactly one dash. */
  lemma SlugsJoinedByOneDash(a: string, w: string, b: string)
    requires IsSlug(a) && IsSlug(b) && a != [] && b != []
    requires w != [] && forall i :: 0 <= i < |w| ==> IsSpace(w[i])
    ensures Slugify(a + w + b) == a + "-" + b
  {
    DashedJoin(a, w, b);
    SlugJoin(a, b);
    DashStagesKeepSlugs(a + "-" + b);
  }

  /** Lower-casing keeps what has no upper-case letter, such as white space or dashes, so it
      lower-cases the two sides of a run of it. */
  lemma LowerAllAround(a: string, w: string, b: string)
    requires NoUpper(w)
    ensures LowerAll(a + w + b) == LowerAll(a) + w + LowerAll(b)
  {
    var s, r := a + w + b, LowerAll(a) + w + LowerAll(b);
    forall i | 0 <= i < |s| ensures LowerAll(s)[i] == r[i] {
      if i < |a| { assert s[i] == a[i]; }
      else if i < |a| + |w| { assert s[i] == w[i - |a|]; }
      else { assert s[i] == b[i - |a| - |w|]; }
    }
  }

  /** Lower-cased word characters form a slug. */
  lemma LoweredWordsAreSlug(a: string)
    requires forall i :: 0 <= i < |a| ==> IsWord(a[i])
    ensures IsSlug(LowerAll(a))
    ensures forall i :: 0 <= i < |a| ==> LowerAll(a)[i] != '-'
  {
    var r := LowerAll(a);
    forall i | 0 <= i < |r| ensures IsSlugChar(r[i]) && r[i] != '-' {
      assert IsWord(a[i]) && r[i] == Lower(a[i]);
    }
  }

  /** `slugify` lower-cases first, so lower-casing its input changes nothing. */
  lemma SlugifyOfLowered(s: string)
    ensures Slugify(LowerAll(s)) == Slugify(s)
  {
    LowerAllKeeps(LowerAll(s));
  }

  /** A run of white space between two words, in any case, becomes exactly one dash, and
      both words are lower-cased. */
  lemma SpaceRunBecomesOneDash(a: string, w: string, b: string)
    requires a != [] && forall i :: 0 <= i < |a| ==> IsWord(a[i])
    requires b != [] && forall i :: 0 <= i < |b| ==> IsWord(b[i])
    requires w != [] && forall i :: 0 <= i < |w| ==> IsSpace(w[i])
    ensures Slugify(a + w + b) == LowerAll(a) + "-" + LowerAll(b)
  {
    assert NoUpper(w) by {
      forall i | 0 <= i < |w| ensures !IsUpper(w[i]) { assert IsSpace(w[i]); }
    }
    LowerAllAround(a, w, b);
    SlugifyOfLowered(a + w + b);
    LoweredWordsAreSlug(a);
    LoweredWordsAreSlug(b);
    SlugsJoinedByOneDash(LowerAll(a), w, LowerAll(b));
  }

  /** A run of dashes between two words, in any case, becomes exactly one dash, and both
      words are lower-cased. */
  lemma DashRunBecomesOneDash(a: string, d: string, b: string)
    requires a != [] && forall i :: 0 <= i < |a| ==> IsWord(a[i])
    requires b != [] && forall i :: 0 <= i < |b| ==> IsWord(b[i])
    requires d != [] && forall i :: 0 <= i < |d| ==> d[i] == '-'
    ensures Slugify(a + d + b) == LowerAll(a) + "-" + LowerAll(b)
  {
    assert NoUpper(d) by {
      forall i | 0 <= i < |d| ensures !IsUpper(d[i]) { assert d[i] == '-'; }
    }
    LowerAllAround(a, d, b);
    SlugifyOfLowered(a + d + b);
    var la, lb := LowerAll(a), LowerAll(b);
    LoweredWordsAreSlug(a);
    LoweredWordsAreSlug(b);
    DashedWordsStages(la, d, lb);
    DashedWordsCollapse(la, d, lb);
  }

  /** The stages from collapsing on turn two slugs around a run of dashes into the slugs
      joined by one dash. */
  lemma DashedWordsCollapse(la: string, d: string, lb: string)
    requires la != [] && lb != [] && IsSlug(la) && IsSlug(lb)
    requires forall i :: 0 <= i < |la| ==> la[i] != '-'
    requires forall i :: 0 <= i < |lb| ==> lb[i] != '-'
    requires d != [] && forall i :: 0 <= i < |d| ==> d[i] == '-'
    ensures TrimTrailingDashes(TrimLeadingDashes(CollapseDashes(la + d + lb))) == la + "-" + lb
  {
    assert la[|la| - 1] != '-' && lb[0] != '-';
    CollapseDashRun(la, d, lb);
    CollapseDashesKeeps(la);
    CollapseDashesKeeps(lb);
    var j := la + "-" + lb;
    assert j[0] == la[0] != '-';
    assert TrimLeadingDashes(j) == j;
    assert j[|j| - 1] == lb[|lb| - 1] != '-';
    assert TrimTrailingDashes(j) == j;
  }

  /** Slug characters joined around a run of dashes are still slug characters. */
  lemma SlugCharsAroundDashes(la: string, d: string, lb: string)
    requires IsSlug(la) && IsSlug(lb)
    requires forall i :: 0 <= i < |d| ==> d[i] == '-'
    ensures forall i :: 0 <= i < |la + d + lb| ==> IsSlugChar((la + d + lb)[i])
  {
    var s := la + d + lb;
    forall i | 0 <= i < |s| ensures IsSlugChar(s[i]) {
      if i < |la| { assert s[i] == la[i]; }
      else if i < |la| + |d| { assert s[i] == d[i - |la|]; }
      else { assert s[i] == lb[i - |la| - |d|]; }
    }
  }

  /** Slug characters are word characters or dashes, and neither white space nor upper case. */
  lemma SlugCharsAreKept(s: string)
    requires forall i :: 0 <= i < |s| ==> IsSlugChar(s[i])
    ensures AllWordOrDash(s) && NoSpace(s) && NoUpper(s)
  {
    forall i | 0 <= i < |s| ensures WordOrDash(s[i]) && !IsSpace(s[i]) && !IsUpper(s[i]) {
      assert IsSlugChar(s[i]);
    }
  }

  /** Two slugs around a run of dashes pass the stages before collapsing unchanged. */
  lemma DashedWordsStages(la: string, d: string, lb: string)
    requires IsSlug(la) && IsSlug(lb)
    requires forall i :: 0 <= i < |d| ==> d[i] == '-'
    ensures LowerAll(la + d + lb) == la + d + lb
    ensures KeepWordsAndDashes(DashSpaces(Trim(la + d + lb))) == la + d + lb
  {
    var s := la + d + lb;
    SlugCharsAroundDashes(la, d, lb);
    SlugCharsAreKept(s);
    LowerAllKeeps(s);
    TrimKeeps(s);
    DashSpacesKeeps(s);
    KeepWordsAndDashesKeeps(s);
  }

  lemma LowerWord(a: string, r: string)
    requires |a| == |r| && forall i :: 0 <= i < |a| ==> Lower(a[i]) == r[i]
    ensures LowerAll(a) == r
  {
  }

  /** The title "Hello   World" gives the slug "hello-world". */
  lemma HelloWorld()
    ensures Slugify("Hello   World") == "hello-world"
  {
    var a, w, b := "Hello", "   ", "World";
    assert a + w + b == "Hello   World";
    assert forall i :: 0 <= i < |a| ==> IsWord(a[i]);
    assert forall i :: 0 <= i < |b| ==> IsWord(b[i]);
    assert forall i :: 0 <= i < |w| ==> IsSpace(w[i]);
    LowerWord(a, "hello");
    LowerWord(b, "world");
    assert "hello" + "-" + "world" == "hello-world";
    SpaceRunBecomesOneDash(a, w, b);
  }

  // ---- The word characters survive ----

  /** Turning white space into dashes keeps every word character. */
  lemma {:induction false} DashSpacesKeepsWords(s: string)
    ensures WordChars(DashSpaces(s)) == WordChars(s)
    decreases |s|
  {
    if s != [] {
      if IsSpace(s[0]) {
        var t := TrimStart(s);
        assert DashSpaces(s) == ['-'] + DashSpaces(t);
        DashSpacesKeepsWords(t);
        WordCharsCons('-', DashSpaces(t));
        TrimStartKeepsWords(s);
      } else {
        var t := s[1..];
        assert DashSpaces(s) == [s[0]] + DashSpaces(t);
        DashSpacesKeepsWords(t);
        assert s == [s[0]] + t;
        WordCharsCons(s[0], t);
        WordCharsCons(s[0], DashSpaces(t));
      }
    }
  }

  lemma TrimStartKeepsWords(s: string)
    ensures WordChars(TrimStart(s)) == WordChars(s)
  {
    var t := TrimStart(s);
    var k := |s| - |t|;
    forall i | 0 <= i < k ensures !IsWord(s[i]) {
      SpaceIsNotWord(s[i]);
    }
    assert s[k..|s|] == t;
    WordCharsOfSlice(s, k, |s|);
  }

  /** Trimming white space keeps every word character. */
  lemma TrimKeepsWords(s: string)
    ensures WordChars(Trim(s)) == WordChars(s)
  {
    TrimIsSlice(s);
    var lo := TrimOffset(s);
    var hi := lo + |Trim(s)|;
    forall i | 0 <= i < lo || hi <= i < |s| ensures !IsWord(s[i]) {
      SpaceIsNotWord(s[i]);
    }
    WordCharsOfSlice(s, lo, hi);
  }

  /** `slugify` keeps every word character of its input, lower-cased and in order: it
      removes only white space, punctuation and dashes. */
  lemma SlugifyKeepsWords(text: string)
    ensures WordChars(Slugify(text)) == WordChars(LowerAll(text))
  {
    var lowered := LowerAll(text);
    var kept := KeepWordsAndDashes(DashSpaces(Trim(lowered)));
    SpaceStagesKeepWords(lowered);
    DashStagesKeepWords(kept);
  }

  /** The stages up to dropping punctuation keep every word character. */
  lemma SpaceStagesKeepWords(lowered: string)
    ensures WordChars(KeepWordsAndDashes(DashSpaces(Trim(lowered)))) == WordChars(lowered)
  {
    var trimmed := Trim(lowered);
    TrimKeepsWords(lowered);
    DashSpacesKeepsWords(trimmed);
  }

  /** The stages from collapsing dashes on keep every word character. */
  lemma DashStagesKeepWords(kept: string)
    ensures WordChars(TrimTrailingDashes(TrimLeadingDashes(CollapseDashes(kept)))) == WordChars(kept)
  {
    var collapsed := CollapseDashes(kept);
    WordCharsOfDropDashes(kept);
    WordCharsOfDropDashes(collapsed);
    var front := TrimLeadingDashes(collapsed);
    WordCharsOfSlice(collapsed, |collapsed| - |front|, |collapsed|);
    var r := TrimTrailingDashes(front);
    WordCharsOfSlice(front, 0, |r|);
  }

  // ---- Runs of dashes ----

  /** One step of collapsing, on a text split into its first character and the rest. */
  lemma CollapseDashesCons(c: char, t: string)
    ensures CollapseDashes([c] + t) ==
      if c == '-' && t != [] && t[0] == '-' then CollapseDashes(t) else [c] + CollapseDashes(t)
  {
    assert ([c] + t)[1..] == t;
  }

  lemma ConsAppend(a: string, x: string)
    requires a != []
    ensures a == [a[0]] + a[1..] && a + x == [a[0]] + (a[1..] + x)
  {
  }

  lemma Assoc(a: string, b: string, c: string)
    ensures (a + b) + c == a + (b + c)
  {
  }

  /** A cut after a character other than a dash does not split a run of dashes, so the
      two sides collapse separately. */
  lemma {:induction false} CollapseDashesSplit(a: string, x: string)
    requires a == [] || a[|a| - 1] != '-'
    ensures CollapseDashes(a + x) == CollapseDashes(a) + CollapseDashes(x)
  {
    if a == [] {
      assert a + x == x;
    } else {
      var c, t := a[0], a[1..];
      ConsAppend(a, x);
      CollapseDashesCons(c, t);
      CollapseDashesCons(c, t + x);
      if t == [] {
        assert t + x == x;
      } else {
        assert (t + x)[0] == t[0] && t[|t| - 1] == a[|a| - 1];
        CollapseDashesSplit(t, x);
        if !(c == '-' && t[0] == '-') {
          Assoc([c], CollapseDashes(t), CollapseDashes(x));
        }
      }
    }
  }

  /** A run of dashes in front of a text not starting with a dash collapses to one. */
  lemma {:induction false} CollapseDashRunFront(d: string, b: string)
    requires d != [] && forall i :: 0 <= i < |d| ==> d[i] == '-'
    requires b == [] || b[0] != '-'
    ensures CollapseDashes(d + b) == "-" + CollapseDashes(b)
    decreases |d|
  {
    var t := d[1..];
    assert d + b == ['-'] + (t + b);
    CollapseDashesCons('-', t + b);
    if t == [] {
      assert t + b == b;
    } else {
      assert (t + b)[0] == '-';
      CollapseDashRunFront(t, b);
    }
  }

  /** Every run of dashes between two other characters becomes one dash. */
  lemma CollapseDashRun(a: string, d: string, b: string)
    requires a == [] || a[|a| - 1] != '-'
    requires d != [] && forall i :: 0 <= i < |d| ==> d[i] == '-'
    requires b == [] || b[0] != '-'
    ensures CollapseDashes(a + d + b) == CollapseDashes(a) + "-" + CollapseDashes(b)
  {
    Assoc(a, d, b);
    CollapseDashesSplit(a, d + b);
    CollapseDashRunFront(d, b);
    Assoc(CollapseDashes(a), "-", CollapseDashes(b));
  }

  /** Dropping characters is done one character at a time, so it distributes over
      concatenation. */
  lemma {:induction false} KeepWordsAndDashesAppend(a: string, b: string)
    ensures KeepWordsAndDashes(a + b) == KeepWordsAndDashes(a) + KeepWordsAndDashes(b)
  {
    if a == [] {
      assert a + b == b;
    } else {
      assert (a + b)[0] == a[0] && (a + b)[1..] == a[1..] + b;
      KeepWordsAndDashesAppend(a[1..], b);
    }
  }
}
