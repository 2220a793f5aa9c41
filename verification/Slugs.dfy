// Workspace slugs (workspace_repository.py), on ASCII text.
module Slugs {
  import opened Prelude
  import opened Text

  type WorkspaceId = nat

  predicate IsDigit(c: char) {
    '0' <= c <= '9'
  }

  // \w of the regular expressions
  predicate IsWord(c: char) {
    'a' <= c <= 'z' || IsUpper(c) || IsDigit(c) || c == '_'
  }

  // [\s_-]
  predicate IsSeparator(c: char) {
    IsSpace(c) || c == '_' || c == '-'
  }

  // re.sub(r"[^\w\s-]", "", s)
  function Keep(s: string): string {
    if s == "" then ""
    else if IsWord(s[0]) || IsSeparator(s[0]) then [s[0]] + Keep(s[1..])
    else Keep(s[1..])
  }

  function SkipSeparators(s: string): (r: string)
    ensures |r| <= |s|
  {
    if s != "" && IsSeparator(s[0]) then SkipSeparators(s[1..]) else s
  }

  // re.sub(r"[\s_-]+", "-", s)
  function Collapse(s: string): string
    decreases |s|
  {
    if s == "" then ""
    else if IsSeparator(s[0]) then "-" + Collapse(SkipSeparators(s[1..]))
    else [s[0]] + Collapse(s[1..])
  }

  // _slugify; `hex` is the random text of the fallback name.
  function Slugify(text: string, hex: string): string {
    var slug := Collapse(Keep(Strip(Lower(text))));
    if slug != "" then slug else "workspace-" + hex
  }

  // ---------- the shape of slugs ----------

  predicate IsSlugChar(c: char) {
    'a' <= c <= 'z' || IsDigit(c) || c == '-'
  }

  // Lower-case letters, digits and single dashes.
  predicate IsSlug(s: string) {
    && s != ""
    && (forall i :: 0 <= i < |s| ==> IsSlugChar(s[i]))
    && (forall i :: 0 < i < |s| ==> s[i - 1] != '-' || s[i] != '-')
  }

  predicate IsHex(s: string) {
    s != "" && forall i :: 0 <= i < |s| ==> IsDigit(s[i]) || 'a' <= s[i] <= 'f'
  }

  lemma {:induction false} KeepChars(s: string)
    ensures forall c <- Keep(s) :: c in s && (IsWord(c) || IsSeparator(c))
  {
    if s == "" {
    } else {
      KeepChars(s[1..]);
    }
  }

  lemma {:induction false} SkipSeparatorsSuffix(s: string)
    ensures SkipSeparators(s) == "" || !IsSeparator(SkipSeparators(s)[0])
    ensures forall c <- SkipSeparators(s) :: c in s
  {
    if s != "" && IsSeparator(s[0]) {
      SkipSeparatorsSuffix(s[1..]);
    }
  }

  lemma {:induction false} CollapseShape(s: string)
    requires forall c <- s :: (IsWord(c) && !IsUpper(c)) || IsSeparator(c)
    ensures s != "" ==> IsSlug(Collapse(s))
    ensures s != "" && !IsSeparator(s[0]) ==> Collapse(s)[0] != '-'
    decreases |s|
  {
    if s == "" {
    } else {
      var rest := if IsSeparator(s[0]) then SkipSeparators(s[1..]) else s[1..];
      SkipSeparatorsSuffix(s[1..]);
      CollapseShape(rest);
      assert Collapse(s)[1..] == Collapse(rest);
    }
  }

  lemma LowerHasNoCapitals(s: string)
    ensures forall c <- Lower(s) :: !IsUpper(c)
  {
  }

  // Every slug is lower-case letters, digits and dashes, no two dashes adjacent.
  lemma SlugifyShape(text: string, hex: string)
    requires IsHex(hex)
    ensures IsSlug(Slugify(text, hex))
  {
    var low := Lower(text);
    StripTrims(low);
    LowerHasNoCapitals(text);
    var trimmed := Strip(low);
    assert forall c <- trimmed :: c in low;
    KeepChars(trimmed);
    CollapseShape(Keep(trimmed));
    if Collapse(Keep(trimmed)) == "" {
      FallbackShape(hex);
    }
  }

  lemma FallbackShape(hex: string)
    requires IsHex(hex)
    ensures IsSlug("workspace-" + hex)
  {
  }

  lemma {:induction false} KeepFixed(s: string)
    requires forall i :: 0 <= i < |s| ==> IsSlugChar(s[i])
    ensures Keep(s) == s
  {
    if s == "" {
    } else {
      KeepFixed(s[1..]);
    }
  }

  lemma {:induction false} CollapseFixed(s: string)
    requires s == "" || IsSlug(s)
    ensures Collapse(s) == s
    decreases |s|
  {
    if s == "" {
    } else {
      if |s| > 1 && s[0] == '-' {
        assert SkipSeparators(s[1..]) == s[1..];
      }
      CollapseFixed(s[1..]);
    }
  }

  // A text is left alone exactly when it is already a slug.
  lemma SlugifyFixedPoints(s: string, hex: string)
    requires IsHex(hex)
    ensures Slugify(s, hex) == s <==> IsSlug(s)
  {
    if IsSlug(s) {
      assert NoCapitals(s);
      LowerFixed(s);
      StripTrimmed(s);
      KeepFixed(s);
      CollapseFixed(s);
    }
    SlugifyShape(s, hex);
  }

  // Slugging a slug changes nothing.
  lemma SlugifyIdempotent(text: string, hex: string, hex': string)
    requires IsHex(hex) && IsHex(hex')
    ensures Slugify(Slugify(text, hex), hex') == Slugify(text, hex)
  {
    SlugifyShape(text, hex);
    SlugifyFixedPoints(Slugify(text, hex), hex');
  }

  // ---------- what a slug says ----------

  predicate IsAlnum(c: char) {
    IsWord(c) && c != '_'
  }

  lemma {:induction false} KeepAppend(a: string, b: string)
    ensures Keep(a + b) == Keep(a) + Keep(b)
  {
    if a == "" {
      assert a + b == b;
    } else {
      assert (a + b)[1..] == a[1..] + b;
      KeepAppend(a[1..], b);
    }
  }

  lemma {:induction false} SkipAppend(x: string, b: string)
    requires x != "" && !IsSeparator(x[|x| - 1])
    ensures SkipSeparators(x + b) == SkipSeparators(x) + b
    ensures SkipSeparators(x) != "" && !IsSeparator(SkipSeparators(x)[|SkipSeparators(x)| - 1])
  {
    if IsSeparator(x[0]) {
      assert (x + b)[1..] == x[1..] + b;
      SkipAppend(x[1..], b);
    }
  }

  lemma {:induction false} CollapseAppend(a: string, b: string)
    requires a == "" || !IsSeparator(a[|a| - 1])
    ensures Collapse(a + b) == Collapse(a) + Collapse(b)
    decreases |a|
  {
    if a == "" {
      assert a + b == b;
    } else {
      assert (a + b)[1..] == a[1..] + b;
      if IsSeparator(a[0]) {
        SkipAppend(a[1..], b);
        CollapseAppend(SkipSeparators(a[1..]), b);
      } else {
        CollapseAppend(a[1..], b);
      }
    }
  }

  lemma {:induction false} SkipAll(x: string, b: string)
    requires (forall c <- x :: IsSeparator(c)) && (b == "" || !IsSeparator(b[0]))
    ensures SkipSeparators(x + b) == b
  {
    if x == "" {
      assert x + b == b;
    } else {
      assert (x + b)[1..] == x[1..] + b && x[0] in x;
      SkipAll(x[1..], b);
    }
  }

  lemma CollapseGap(x: string, b: string)
    requires (forall c <- x :: IsSeparator(c)) && (b == "" || !IsSeparator(b[0]))
    ensures Collapse(x + b) == (if x == "" then "" else "-") + Collapse(b)
  {
    if x == "" {
      assert x + b == b;
    } else {
      assert (x + b)[1..] == x[1..] + b && x[0] in x;
      SkipAll(x[1..], b);
    }
  }

  lemma {:induction false} KeepOfGap(s: string)
    requires forall c <- s :: !IsAlnum(c)
    ensures forall c <- Keep(s) :: IsSeparator(c)
    ensures Keep(s) == "" <==> forall c <- s :: !IsSeparator(c)
  {
    if s == "" {
    } else {
      assert s[0] in s && forall c <- s :: c == s[0] || c in s[1..];
      KeepOfGap(s[1..]);
    }
  }

  // The piece keeps its first and last character.
  lemma KeepEnds(s: string)
    requires s != "" && IsAlnum(s[0]) && IsAlnum(s[|s| - 1])
    ensures Keep(s) != "" && Keep(s)[0] == s[0] && Keep(s)[|Keep(s)| - 1] == s[|s| - 1]
  {
    var n := |s| - 1;
    KeepAppend(s[..n], s[n..]);
    assert s == s[..n] + s[n..] && s[n..] == [s[n]] && s[n..][1..] == "";
    assert Keep(s[n..]) == [s[n]];
  }

  // A text that starts and ends with a letter or digit.
  predicate Framed(s: string) {
    s != "" && IsAlnum(s[0]) && IsAlnum(s[|s| - 1])
  }

  lemma FramedSlug(s: string, hex: string)
    requires Framed(s)
    ensures Slugify(s, hex) == Collapse(Keep(Lower(s))) && Framed(Lower(s))
  {
    var low := Lower(s);
    assert Trimmed(low);
    StripTrimmed(low);
    KeepEnds(low);
    assert Collapse(Keep(low)) != "";
  }

  lemma WordChars(w: string)
    requires w != "" && forall c <- w :: IsAlnum(c)
    ensures Framed(w) && IsSlug(Lower(w))
  {
    assert w[0] in w && w[|w| - 1] in w;
    forall i | 0 <= i < |w|
      ensures IsSlugChar(Lower(w)[i]) && Lower(w)[i] != '-'
    {
      assert w[i] in w;
    }
  }

  // A word becomes itself in lower case.
  lemma SlugOfWord(w: string, hex: string)
    requires w != "" && forall c <- w :: IsAlnum(c)
    ensures Slugify(w, hex) == Lower(w)
  {
    WordChars(w);
    FramedSlug(w, hex);
    KeepFixed(Lower(w));
    CollapseFixed(Lower(w));
    hide Slugify, Collapse, Keep, Lower, Framed;
  }

  lemma Regroup(x: string, y: string, z: string)
    ensures x + (y + z) == x + y + z
  {
  }

  lemma KeepThree(a: string, gap: string, b: string)
    ensures Keep(a + gap + b) == Keep(a) + (Keep(gap) + Keep(b))
  {
    hide Keep;
    Regroup(a, gap, b);
    KeepAppend(a, gap + b);
    KeepAppend(gap, b);
  }

  lemma CollapseThree(a: string, gap: string, b: string)
    requires (a == "" || !IsSeparator(a[|a| - 1])) && (forall c <- gap :: IsSeparator(c)) && b != "" && !IsSeparator(b[0])
    ensures Collapse(a + (gap + b)) == Collapse(a) + (if gap == "" then "" else "-") + Collapse(b)
  {
    hide Collapse;
    CollapseAppend(a, gap + b);
    CollapseGap(gap, b);
    Regroup(Collapse(a), if gap == "" then "" else "-", Collapse(b));
  }

  lemma CollapseJoin(a: string, gap: string, b: string)
    requires Framed(a) && Framed(b) && forall c <- gap :: !IsAlnum(c)
    ensures Collapse(Keep(a + gap + b)) ==
      Collapse(Keep(a)) + (if exists c <- gap :: IsSeparator(c) then "-" else "") + Collapse(Keep(b))
  {
    hide Keep, Collapse;
    KeepThree(a, gap, b);
    KeepOfGap(gap);
    KeepEnds(a);
    KeepEnds(b);
    CollapseThree(Keep(a), Keep(gap), Keep(b));
  }

  lemma FramedJoin(a: string, gap: string, b: string)
    requires Framed(a) && Framed(b)
    ensures Framed(a + gap + b)
  {
  }

  lemma LowerJoin(a: string, gap: string, b: string)
    requires forall c <- gap :: !IsAlnum(c)
    ensures Lower(a + gap + b) == Lower(a) + gap + Lower(b)
  {
    LowerAppend(a + gap, b);
    LowerAppend(a, gap);
    LowerGap(gap);
  }

  // Two texts with something between them that holds no letter or digit: their slugs are joined, by
  // one dash if a space, an underscore or a dash is there, and directly if there is only what is dropped.
  lemma SlugOfJoin(a: string, gap: string, b: string, hex: string)
    requires Framed(a) && Framed(b) && forall c <- gap :: !IsAlnum(c)
    ensures Slugify(a + gap + b, hex) ==
      Slugify(a, hex) + (if exists c <- gap :: IsSeparator(c) then "-" else "") + Slugify(b, hex)
  {
    FramedJoin(a, gap, b);
    FramedSlug(a, hex);
    FramedSlug(b, hex);
    FramedSlug(a + gap + b, hex);
    LowerJoin(a, gap, b);
    CollapseJoin(Lower(a), gap, Lower(b));
    hide Slugify, Collapse, Keep, Lower, Framed;
  }

  lemma LowerGap(gap: string)
    requires forall c <- gap :: !IsAlnum(c)
    ensures Lower(gap) == gap
  {
    assert forall i :: 0 <= i < |gap| ==> gap[i] in gap;
  }

  // Outer space counts for nothing.
  lemma SlugOfSpaced(text: string, hex: string)
    ensures Slugify(Strip(text), hex) == Slugify(text, hex)
  {
    LowerStrip(text);
    StripTrims(text);
    StripTrims(Lower(text));
    StripTrimmed(Strip(Lower(text)));
  }

  // ---------- candidates ----------

  function Decimal(n: nat): (s: string)
    ensures s != "" && forall i :: 0 <= i < |s| ==> IsDigit(s[i])
  {
    (if n < 10 then "" else Decimal(n / 10)) + [('0' as int + n % 10) as char]
  }

  // The number that a text of digits writes.
  function Value(s: string): int {
    if s == "" then 0 else 10 * Value(s[..|s| - 1]) + (s[|s| - 1] as int - '0' as int)
  }

  lemma {:induction false} DecimalWrites(n: nat)
    ensures Value(Decimal(n)) == n && (|Decimal(n)| > 1 ==> Decimal(n)[0] != '0')
  {
    var s := Decimal(n);
    assert s[..|s| - 1] == (if n < 10 then "" else Decimal(n / 10));
    if n < 10 {
    } else {
      DecimalWrites(n / 10);
    }
  }

  // The n-th text that create_workspace tries.
  function Candidate(base: string, n: nat): string {
    if n == 1 then base else base + "-" + Decimal(n)
  }

  lemma {:induction false} DecimalInjective(a: nat, b: nat)
    requires Decimal(a) == Decimal(b)
    ensures a == b
  {
    var s, t := Decimal(a), Decimal(b);
    assert s[|s| - 1] == t[|t| - 1];
    assert a % 10 == b % 10;
    assert s[..|s| - 1] == (if a < 10 then "" else Decimal(a / 10));
    assert t[..|t| - 1] == (if b < 10 then "" else Decimal(b / 10));
    if a >= 10 && b >= 10 {
      DecimalInjective(a / 10, b / 10);
    }
  }

  lemma CandidateInjective(base: string, a: nat, b: nat)
    requires a >= 1 && b >= 1 && Candidate(base, a) == Candidate(base, b)
    ensures a == b
  {
    assert forall n: nat | n > 1 :: |Candidate(base, n)| > |base|;
    if a > 1 && b > 1 {
      var p := |base| + 1;
      assert Candidate(base, a)[p..] == Decimal(a) && Candidate(base, b)[p..] == Decimal(b);
      DecimalInjective(a, b);
    }
  }

  ghost predicate AllTaken(taken: set<string>, base: string, n: nat) {
    forall i :: 1 <= i <= n ==> Candidate(base, i) in taken
  }

  // Pigeonhole: n different candidates cannot all be among fewer than n taken slugs.
  lemma {:induction false} TakenBoundsCandidates(taken: set<string>, base: string, n: nat)
    requires AllTaken(taken, base, n)
    ensures n <= |taken|
  {
    if n == 0 {
    } else {
      var last := Candidate(base, n);
      forall i | 1 <= i <= n - 1
        ensures Candidate(base, i) in taken - {last}
      {
        if Candidate(base, i) == last {
          CandidateInjective(base, i, n);
        }
      }
      TakenBoundsCandidates(taken - {last}, base, n - 1);
    }
  }

  // The first free candidate, and no earlier one is free.
  ghost predicate IsFirstFree(taken: set<string>, base: string, slug: string) {
    exists n: nat :: n >= 1 && slug == Candidate(base, n) && slug !in taken && AllTaken(taken, base, n - 1)
  }

  // The suffix loop: it ends after at most one candidate more than there are slugs taken.
  method AllocateSlug(taken: set<string>, base: string) returns (slug: string, counter: nat)
    ensures 1 <= counter <= |taken| + 1
    ensures slug == Candidate(base, counter) && slug !in taken && AllTaken(taken, base, counter - 1)
    ensures IsFirstFree(taken, base, slug)
    ensures slug == if counter == 1 then base else base + "-" + Decimal(counter)
  {
    slug := base;
    counter := 1;
    while slug in taken
      invariant counter >= 1 && slug == Candidate(base, counter)
      invariant AllTaken(taken, base, counter - 1)
      invariant counter <= |taken| + 1
      decreases |taken| + 1 - counter
    {
      TakenBoundsCandidates(taken, base, counter);
      counter := counter + 1;
      slug := base + "-" + Decimal(counter);
    }
  }

  lemma FirstFreeUnique(taken: set<string>, base: string, a: string, b: string)
    requires IsFirstFree(taken, base, a) && IsFirstFree(taken, base, b)
    ensures a == b
  {
  }

  // A suffixed slug is itself a slug exactly when its base does not end in a dash; otherwise two
  // dashes meet.
  lemma SuffixedCandidateIsSlug(base: string, n: nat, hex: string)
    requires IsSlug(base) && n >= 2 && IsHex(hex)
    ensures Slugify(Candidate(base, n), hex) == Candidate(base, n) <==> base[|base| - 1] != '-'
  {
    var c := Candidate(base, n);
    SlugifyFixedPoints(c, hex);
    if base[|base| - 1] == '-' {
      assert c[|base| - 1] == '-' && c[|base|] == '-';
    } else {
      forall i | 0 <= i < |c|
        ensures IsSlugChar(c[i]) && (i > 0 ==> c[i - 1] != '-' || c[i] != '-')
      {
        if i > |base| {
          assert c[i] == Decimal(n)[i - |base| - 1];
        }
      }
    }
  }

  // ---------- the table ----------

  class WorkspaceTable {
    var slugs: map<WorkspaceId, string>

    constructor ()
      ensures Distinct() && slugs == map[]
    {
      slugs := map[];
    }

    ghost predicate Distinct()
      reads this
    {
      forall a, b | a in slugs && b in slugs && slugs[a] == slugs[b] :: a == b
    }

    // create_workspace with a new random id
    method CreateWorkspace(id: WorkspaceId, name: string, slug: Option<string>, hex: string) returns (target: string)
      requires Distinct() && id !in slugs
      modifies this
      ensures Distinct()
      ensures var base := Slugify(if slug.Some? && slug.value != "" then slug.value else Strip(name), hex);
        IsFirstFree(old(slugs.Values), base, target)
      ensures slugs == old(slugs)[id := target]
    {
      var base := Slugify(if slug.Some? && slug.value != "" then slug.value else Strip(name), hex);
      var counter;
      target, counter := AllocateSlug(slugs.Values, base);
      assert forall k <- slugs :: slugs[k] in slugs.Values;
      slugs := slugs[id := target];
    }

    // update_workspace: a slug held by another workspace is an error; an unknown id updates no row.
    method UpdateSlug(id: WorkspaceId, slug: string, hex: string) returns (r: Result<bool, string>)
      requires Distinct()
      modifies this
      ensures Distinct()
      ensures var clean := Slugify(slug, hex);
        if slug == "" then r == Ok(false) && slugs == old(slugs)
        else if exists k :: k in old(slugs) && k != id && old(slugs)[k] == clean then r == Err(clean) && slugs == old(slugs)
        else r == Ok(id in old(slugs)) && slugs == if id in old(slugs) then old(slugs)[id := clean] else old(slugs)
    {
      if slug == "" {
        return Ok(false);
      }
      var clean := Slugify(slug, hex);
      if exists k :: k in slugs && k != id && slugs[k] == clean {
        return Err(clean);
      }
      if id !in slugs {
        return Ok(false);
      }
      slugs := slugs[id := clean];
      return Ok(true);
    }

    method DeleteWorkspace(id: WorkspaceId) returns (deleted: bool)
      requires Distinct()
      modifies this
      ensures Distinct()
      ensures deleted <==> id in old(slugs)
      ensures slugs == old(slugs) - {id}
    {
      deleted := id in slugs;
      slugs := slugs - {id};
    }
  }
}
