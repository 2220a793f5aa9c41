// Escaping of user text inside `ILIKE ... ESCAPE '\'` filters (audit log, task list, database manager).
module LikePattern {
  import opened Text

  // ---------- the LIKE predicate, section 8.5 of ISO/IEC 9075-2, escape character '\' ----------

  predicate Like(p: string, t: string)
    decreases |p| + |t|
  {
    if p == "" then
      t == ""
    else if p[0] == '%' then
      Like(p[1..], t) || (t != "" && Like(p, t[1..]))
    else if p[0] == '_' then
      t != "" && Like(p[1..], t[1..])
    else if p[0] == '\\' then
      |p| >= 2 && t != "" && t[0] == p[1] && Like(p[2..], t[1..])
    else
      t != "" && t[0] == p[0] && Like(p[1..], t[1..])
  }

  // Case-insensitive matching folds the pattern and the text.
  predicate ILike(p: string, t: string) {
    Like(Lower(p), Lower(t))
  }

  predicate IsSpecial(c: char) {
    c == '\\' || c == '%' || c == '_'
  }

  // The standard raises an exception for an escape character that does not precede a special one.
  predicate WellFormedPattern(p: string) {
    p == "" ||
    if p[0] == '\\' then |p| >= 2 && IsSpecial(p[1]) && WellFormedPattern(p[2..])
    else WellFormedPattern(p[1..])
  }

  // ---------- what the service builds ----------

  // str.replace: occurrences are taken from the left and do not overlap.
  function Replace(s: string, old_: string, new_: string): string
    requires old_ != ""
  {
    if |s| < |old_| then s
    else if s[..|old_|] == old_ then new_ + Replace(s[|old_|..], old_, new_)
    else [s[0]] + Replace(s[1..], old_, new_)
  }

  // The three chained replacements, backslash first.
  function EscapeChained(s: string): string {
    Replace(Replace(Replace(s, "\\", "\\\\"), "%", "\\%"), "_", "\\_")
  }

  // The pattern of a substring search.
  function SearchPattern(s: string): string {
    "%" + EscapeChained(s) + "%"
  }

  // The event_type criterion; an empty one adds no condition.
  predicate EventTypeSelects(typed: string, eventType: string) {
    typed == "" || ILike(SearchPattern(Strip(typed)), eventType)
  }

  // ---------- what it means ----------

  function EscapeChar(c: char): string {
    if IsSpecial(c) then ['\\', c] else [c]
  }

  // One pass over the characters: an independent definition of escaping.
  function Escape(s: string): string {
    if s == "" then "" else EscapeChar(s[0]) + Escape(s[1..])
  }

  function Unescape(p: string): string {
    if p == "" then ""
    else if p[0] == '\\' && |p| >= 2 then [p[1]] + Unescape(p[2..])
    else [p[0]] + Unescape(p[1..])
  }

  predicate OccursAt(s: string, t: string, i: nat) {
    i + |s| <= |t| && t[i..i + |s|] == s
  }

  ghost predicate Contains(t: string, s: string) {
    exists i: nat :: OccursAt(s, t, i)
  }

  lemma {:induction false} ReplaceCharAppend(a: string, b: string, c: char, r: string)
    ensures Replace(a + b, [c], r) == Replace(a, [c], r) + Replace(b, [c], r)
  {
    if a == "" {
      assert a + b == b;
    } else {
      assert (a + b)[1..] == a[1..] + b;
      assert (a + b)[..1] == a[..1] == [a[0]];
      ReplaceCharAppend(a[1..], b, c, r);
    }
  }

  // The chained form equals the one-pass form, because the backslash goes first.
  lemma {:induction false} ChainedIsOnePass(s: string)
    ensures EscapeChained(s) == Escape(s)
  {
    if s == "" {
    } else {
      var x, rest := [s[0]], s[1..];
      assert s == x + rest;
      ReplaceCharAppend(x, rest, '\\', "\\\\");
      var x1, r1 := Replace(x, "\\", "\\\\"), Replace(rest, "\\", "\\\\");
      ReplaceCharAppend(x1, r1, '%', "\\%");
      var x2, r2 := Replace(x1, "%", "\\%"), Replace(r1, "%", "\\%");
      ReplaceCharAppend(x2, r2, '_', "\\_");
      ChainedIsOnePass(rest);
      EscapeSingle(s[0]);
    }
  }

  lemma EscapeSingle(c: char)
    ensures EscapeChained([c]) == EscapeChar(c)
  {
    var x := [c];
    assert x[1..] == "" && x[..1] == x;
    var y := Replace(x, "\\", "\\\\");
    assert y == if c == '\\' then "\\\\" else x;
    if c == '\\' {
      assert y[..1] == "\\" && y[1..] == "\\";
      var z := y[1..];
      assert z[1..] == "" && z[..1] == z;
      assert Replace(y, "%", "\\%") == y;
      assert Replace(y, "_", "\\_") == y;
    } else if c == '%' {
      var z := Replace(y, "%", "\\%");
      assert z == "\\%";
      assert z[..1] == "\\" && z[1..] == "%";
      var w := z[1..];
      assert w[1..] == "" && w[..1] == w;
      assert Replace(z, "_", "\\_") == z;
    }
  }

  // Escaping loses nothing.
  lemma {:induction false} UnescapeInvertsEscape(s: string)
    ensures Unescape(EscapeChained(s)) == s
  {
    ChainedIsOnePass(s);
    if s == "" {
    } else {
      UnescapeInvertsEscape(s[1..]);
      ChainedIsOnePass(s[1..]);
      assert Escape(s)[|EscapeChar(s[0])|..] == Escape(s[1..]);
    }
  }

  lemma EscapedCharWellFormed(c: char, q: string)
    requires WellFormedPattern(q)
    ensures WellFormedPattern(EscapeChar(c) + q)
  {
    assert (EscapeChar(c) + q)[|EscapeChar(c)|..] == q;
  }

  lemma {:induction false} EscapedWellFormed(s: string, q: string)
    requires WellFormedPattern(q)
    ensures WellFormedPattern(Escape(s) + q)
  {
    hide WellFormedPattern, EscapeChar;
    if s == "" {
      assert Escape(s) + q == q;
    } else {
      EscapedWellFormed(s[1..], q);
      assert Escape(s) + q == EscapeChar(s[0]) + (Escape(s[1..]) + q);
      EscapedCharWellFormed(s[0], Escape(s[1..]) + q);
    }
  }

  lemma EscapedCharMatches(c: char, q: string, t: string)
    ensures Like(EscapeChar(c) + q, t) <==> t != "" && t[0] == c && Like(q, t[1..])
  {
    assert (EscapeChar(c) + q)[|EscapeChar(c)|..] == q;
  }

  // An escaped text matches itself and nothing else.
  lemma {:induction false} LiteralPrefix(s: string, q: string, t: string)
    ensures Like(Escape(s) + q, t) <==> s <= t && Like(q, t[|s|..])
  {
    if s == "" {
      assert Escape(s) + q == q && t[|s|..] == t;
    } else {
      hide Like, EscapeChar;
      var rest := Escape(s[1..]) + q;
      assert Escape(s) + q == EscapeChar(s[0]) + rest;
      EscapedCharMatches(s[0], rest, t);
      if t != "" {
        LiteralPrefix(s[1..], q, t[1..]);
        assert s <= t <==> s[0] == t[0] && s[1..] <= t[1..];
        if s <= t {
          assert t[|s|..] == t[1..][|s[1..]|..];
        }
      }
    }
  }

  lemma {:induction false} PercentSkips(q: string, t: string)
    ensures Like("%" + q, t) <==> exists i :: 0 <= i <= |t| && Like(q, t[i..])
    decreases |t|
  {
    var p := "%" + q;
    assert p[1..] == q;
    assert t[0..] == t;
    if t == "" {
    } else {
      PercentSkips(q, t[1..]);
      forall i | 0 <= i <= |t[1..]|
        ensures t[1..][i..] == t[i + 1..]
      {
      }
      if i :| 0 <= i <= |t| && Like(q, t[i..]) && i > 0 {
        assert t[1..][i - 1..] == t[i..];
      }
    }
  }

  lemma {:induction false} PercentMatchesAll(t: string)
    ensures Like("%", t)
  {
    if t == "" {
    } else {
      PercentMatchesAll(t[1..]);
    }
  }

  lemma {:induction false} LowerEscape(s: string)
    ensures Lower(Escape(s)) == Escape(Lower(s))
  {
    if s == "" {
    } else {
      LowerEscape(s[1..]);
      LowerAppend(EscapeChar(s[0]), Escape(s[1..]));
      assert Lower(s)[1..] == Lower(s[1..]);
    }
  }

  // Case-sensitive core: %escape(s)% matches exactly the texts that contain s.
  lemma EscapedPatternIsSubstring(s: string, t: string)
    ensures Like("%" + Escape(s) + "%", t) <==> Contains(t, s)
  {
    var q := Escape(s) + "%";
    assert "%" + Escape(s) + "%" == "%" + q;
    PercentSkips(q, t);
    forall i: nat | i <= |t|
      ensures Like(q, t[i..]) <==> OccursAt(s, t, i)
    {
      LiteralPrefix(s, "%", t[i..]);
      if s <= t[i..] {
        PercentMatchesAll(t[i..][|s|..]);
      }
      assert s <= t[i..] <==> OccursAt(s, t, i) by {
        if i + |s| <= |t| {
          assert t[i..][..|s|] == t[i..i + |s|];
        }
      }
    }
    if Contains(t, s) {
      var i: nat :| OccursAt(s, t, i);
      assert i <= |t| && Like(q, t[i..]);
    }
  }

  lemma LowerPattern(s: string)
    ensures Lower("%" + Escape(s) + "%") == "%" + Escape(Lower(s)) + "%"
  {
    LowerEscape(s);
    LowerAppend("%" + Escape(s), "%");
    LowerAppend("%", Escape(s));
    assert Lower("%") == "%";
  }

  // ILIKE with such a pattern is substring search, ignoring case.
  lemma SearchPatternIsSubstring(s: string, t: string)
    ensures ILike(SearchPattern(s), t) <==> Contains(Lower(t), Lower(s))
  {
    ChainedIsOnePass(s);
    LowerPattern(s);
    EscapedPatternIsSubstring(Lower(s), Lower(t));
  }

  // The audit filter selects exactly the rows whose event type contains the trimmed text, ignoring
  // case; a blank text selects every row.
  lemma EventTypeFilterIsSubstring(typed: string, eventType: string)
    ensures EventTypeSelects(typed, eventType) <==> Contains(Lower(eventType), Clean(typed))
    ensures Clean(typed) == "" ==> EventTypeSelects(typed, eventType)
  {
    SearchPatternIsSubstring(Strip(typed), eventType);
    if Clean(typed) == "" {
      assert OccursAt("", Lower(eventType), 0);
    }
  }

  // Every pattern the service sends is legal, whatever the user typed.
  lemma SearchPatternWellFormed(s: string)
    ensures WellFormedPattern(SearchPattern(s))
  {
    ChainedIsOnePass(s);
    EscapedWellFormed(s, "%");
    assert SearchPattern(s)[1..] == Escape(s) + "%";
  }

  lemma EscapeFirst(a: string, b: string)
    requires a != ""
    ensures Escape(a + b) == EscapeChar(a[0]) + Escape(a[1..] + b)
  {
    assert (a + b)[1..] == a[1..] + b;
  }

  lemma Regroup(x: string, y: string, z: string)
    ensures x + (y + z) == x + y + z
  {
  }

  lemma {:induction false} EscapeAppend(a: string, b: string)
    ensures Escape(a + b) == Escape(a) + Escape(b)
  {
    if a == "" {
      assert a + b == b;
    } else {
      EscapeFirst(a, b);
      EscapeAppend(a[1..], b);
      Regroup(EscapeChar(a[0]), Escape(a[1..]), Escape(b));
    }
    hide EscapeChar;
  }
}
