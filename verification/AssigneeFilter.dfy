// The assignee filter of list_tasks (task_repository.py): a LIKE search for a quoted address in the
// text of a JSONB column, and what it selects.
module AssigneeFilter {
  import opened Prelude
  import opened Text
  import opened LikePattern

  function Quoted(s: string): string {
    "\"" + s + "\""
  }

  function AssigneePattern(email: string): string {
    "%\"" + EscapeChained(email) + "\"%"
  }

  // The condition of the query; an empty argument adds none. `assignees` is the column as text.
  predicate TaskSelected(typed: string, assigneeEmail: Option<string>, assignees: string) {
    || typed == ""
    || (assigneeEmail.Some? && Lower(assigneeEmail.value) == Clean(typed))
    || ILike(AssigneePattern(Clean(typed)), assignees)
  }

  lemma AssigneePatternQuotes(s: string)
    ensures AssigneePattern(s) == SearchPattern(Quoted(s))
  {
    ChainedIsOnePass(s);
    ChainedIsOnePass(Quoted(s));
    EscapeAppend("\"" + s, "\"");
    EscapeAppend("\"", s);
    assert Escape("\"") == "\"";
  }

  lemma LowerQuoted(s: string)
    ensures Lower(Quoted(s)) == Quoted(Lower(s))
  {
  }

  // The filter selects the tasks whose single address is the requested one and those whose stored
  // text has it between two quotes, ignoring case.
  lemma AssigneeFilterIsSubstring(typed: string, assigneeEmail: Option<string>, assignees: string)
    ensures TaskSelected(typed, assigneeEmail, assignees) <==>
      || typed == ""
      || (assigneeEmail.Some? && Lower(assigneeEmail.value) == Clean(typed))
      || Contains(Lower(assignees), Quoted(Clean(typed)))
  {
    var s := Clean(typed);
    AssigneePatternQuotes(s);
    SearchPatternIsSubstring(Quoted(s), assignees);
    LowerQuoted(s);
    LowerIdempotent(Strip(typed));
  }

  // ---------- texts cut at their quotes ----------

  function Segments(t: string): (r: seq<string>)
    ensures r != []
  {
    if t == "" then [""]
    else
      var rest := Segments(t[1..]);
      if t[0] == '\"' then [""] + rest else [[t[0]] + rest[0]] + rest[1..]
  }

  // The segments with a quote on either side.
  function Inner(t: string): seq<string> {
    var g := Segments(t);
    if |g| == 1 then [] else g[1..|g| - 1]
  }

  lemma {:induction false} SegmentsPrefix(a: string, b: string)
    requires '\"' !in a
    ensures Segments(a + b) == [a + Segments(b)[0]] + Segments(b)[1..]
  {
    if a == "" {
      var g := Segments(b);
      assert a + b == b && a + g[0] == g[0] && g == [g[0]] + g[1..];
    } else {
      assert (a + b)[1..] == a[1..] + b;
      SegmentsPrefix(a[1..], b);
      assert [a[0]] + (a[1..] + Segments(b)[0]) == a + Segments(b)[0];
    }
  }

  lemma QuoteFreeSegments(a: string)
    requires '\"' !in a
    ensures Segments(a) == [a]
  {
    SegmentsPrefix(a, "");
    assert a + "" == a;
  }

  lemma {:induction false} SegmentsAtQuote(a: string, b: string)
    ensures Segments(a + ("\"" + b)) == Segments(a) + Segments(b)
  {
    if a == "" {
      assert a + ("\"" + b) == "\"" + b;
      assert ("\"" + b)[1..] == b;
    } else {
      assert (a + ("\"" + b))[1..] == a[1..] + ("\"" + b);
      SegmentsAtQuote(a[1..], b);
    }
  }

  lemma OccursAtStart(q: string, t: string)
    requires q != "" && t != ""
    ensures OccursAt(q, t, 0) <==> q[0] == t[0] && OccursAt(q[1..], t[1..], 0)
  {
    assert q == [q[0]] + q[1..] && t == [t[0]] + t[1..];
    if |q| <= |t| {
      assert t[0..|q|] == [t[0]] + t[1..][0..|q| - 1];
    }
  }

  lemma {:induction false} FirstSegment(t: string, s: string)
    requires '\"' !in s
    ensures OccursAt(s + "\"", t, 0) <==> |Segments(t)| > 1 && Segments(t)[0] == s
  {
    if t == "" {
    } else {
      OccursAtStart(s + "\"", t);
      if s == "" {
        assert OccursAt("", t[1..], 0);
      } else {
        assert (s + "\"")[1..] == s[1..] + "\"";
        FirstSegment(t[1..], s[1..]);
        hide OccursAt;
        assert s == [s[0]] + s[1..];
      }
    }
  }

  lemma OccursLater(q: string, t: string)
    requires t != ""
    ensures Contains(t, q) <==> OccursAt(q, t, 0) || Contains(t[1..], q)
  {
    if i: nat :| OccursAt(q, t, i) && i > 0 {
      assert OccursAt(q, t[1..], i - 1);
    }
    if i: nat :| OccursAt(q, t[1..], i) {
      assert OccursAt(q, t, i + 1);
    }
  }

  lemma InnerStep(t: string)
    requires t != ""
    ensures t[0] != '\"' ==> Inner(t) == Inner(t[1..])
    ensures t[0] == '\"' ==> Inner(t) == Segments(t[1..])[..|Segments(t[1..])| - 1]
  {
    var g := Segments(t[1..]);
    if t[0] == '\"' {
      assert ([""] + g)[1..] == g;
    } else {
      assert ([[t[0]] + g[0]] + g[1..])[1..] == g[1..];
    }
  }

  lemma FirstOrInner(t: string, s: string)
    ensures var g := Segments(t);
      s in g[..|g| - 1] <==> (|g| > 1 && g[0] == s) || s in Inner(t)
  {
    var g := Segments(t);
    if |g| > 1 {
      assert g[..|g| - 1] == [g[0]] + g[1..|g| - 1];
    }
  }

  // A quoted text occurs exactly when it is one of the segments between two quotes.
  lemma {:induction false} QuotedIsInner(t: string, s: string)
    requires '\"' !in s
    ensures Contains(t, Quoted(s)) <==> s in Inner(t)
  {
    if t == "" {
    } else {
      QuotedAtStart(t, s);
      OccursLater(Quoted(s), t);
      QuotedIsInner(t[1..], s);
      FirstSegment(t[1..], s);
      InnerStep(t);
      FirstOrInner(t[1..], s);
      hide Segments, Inner, Contains, OccursAt, Quoted;
    }
  }

  lemma QuotedAtStart(t: string, s: string)
    requires t != ""
    ensures OccursAt(Quoted(s), t, 0) <==> t[0] == '\"' && OccursAt(s + "\"", t[1..], 0)
  {
    assert Quoted(s)[1..] == s + "\"";
    OccursAtStart(Quoted(s), t);
  }

  // ---------- JSON ----------

  const BACKSPACE := 8 as char
  const FORM_FEED := 12 as char

  function HexDigit(n: nat): char
    requires n < 16
  {
    if n < 10 then ('0' as int + n) as char else ('a' as int + n - 10) as char
  }

  // One character inside a JSON string, as PostgreSQL writes it.
  function JsonChar(c: char): string {
    if c == '\"' then "\\\""
    else if c == '\\' then "\\\\"
    else if c == BACKSPACE then "\\b"
    else if c == FORM_FEED then "\\f"
    else if c == '\n' then "\\n"
    else if c == '\r' then "\\r"
    else if c == '\t' then "\\t"
    else if c < ' ' then "\\u00" + [HexDigit(c as int / 16), HexDigit(c as int % 16)]
    else [c]
  }

  function JsonText(s: string): string {
    if s == "" then "" else JsonChar(s[0]) + JsonText(s[1..])
  }

  // One string of a JSON text, key or value, and the punctuation up to the next quote.
  datatype Piece = Piece(str: string, gap: string)

  function RenderPieces(ps: seq<Piece>): string {
    if ps == [] then "" else "\"" + (JsonText(ps[0].str) + ("\"" + (ps[0].gap + RenderPieces(ps[1..]))))
  }

  // The text of a JSON value: punctuation, then its strings.
  function Render(lead: string, ps: seq<Piece>): string {
    lead + RenderPieces(ps)
  }

  predicate GapsQuoteFree(lead: string, ps: seq<Piece>) {
    '\"' !in lead && forall p <- ps :: '\"' !in p.gap
  }

  // Text that JSON writes as it is.
  predicate Plain(s: string) {
    forall c <- s :: JsonChar(c) == [c]
  }

  // The string ends in a quote and then s.
  predicate EndsQuoted(str: string, s: string) {
    str != "" && ((str[0] == '\"' && str[1..] == s) || EndsQuoted(str[1..], s))
  }

  lemma SegmentsOfChar(c: char, b: string)
    ensures c == '\"' ==> Segments(JsonChar(c) + b) == ["\\"] + Segments(b)
    ensures c != '\"' ==> Segments(JsonChar(c) + b) == [JsonChar(c) + Segments(b)[0]] + Segments(b)[1..]
  {
    if c == '\"' {
      assert JsonChar(c) + b == "\\" + ("\"" + b);
      SegmentsAtQuote("\\", b);
      QuoteFreeSegments("\\");
    } else {
      SegmentsPrefix(JsonChar(c), b);
    }
  }

  lemma FirstSegmentStep(c: char, first: string, rest: string, s: string)
    requires Plain(s) && c != '\"' && (s != "" ==> (first == s[1..] <==> rest == s[1..]))
    ensures JsonChar(c) + first == s <==> [c] + rest == s
  {
    if s != "" {
      assert s == [s[0]] + s[1..] && JsonChar(s[0]) == [s[0]];
      assert JsonChar(c) + first == s ==> JsonChar(c)[0] == s[0];
      assert JsonChar('\\') != "\\";
    }
  }

  // The parts of a written string that a plain text can equal: all of it, or what follows its last quote.
  lemma {:induction false} JsonSegments(str: string, s: string)
    requires Plain(s)
    ensures Segments(JsonText(str))[0] == s <==> str == s
    ensures s in Segments(JsonText(str))[1..] <==> EndsQuoted(str, s)
    decreases |str|
  {
    if str == "" {
    } else {
      var c, rest := str[0], str[1..];
      var g := Segments(JsonText(rest));
      assert JsonText(str) == JsonChar(c) + JsonText(rest) && str == [c] + rest;
      SegmentsOfChar(c, JsonText(rest));
      JsonSegments(rest, s);
      if c == '\"' {
        assert g == [g[0]] + g[1..] && (["\\"] + g)[1..] == g;
        NoBackslash(s);
      } else {
        if s != "" {
          assert Plain(s[1..]) by { assert forall x <- s[1..] :: x in s; }
          JsonSegments(rest, s[1..]);
        }
        FirstSegmentStep(c, g[0], rest, s);
      }
      hide Segments, JsonText, EndsQuoted, JsonChar;
    }
  }

  lemma NoBackslash(s: string)
    requires Plain(s)
    ensures s != "\\" && (s == "" || s[0] != '\"')
  {
    assert JsonChar('\\') != "\\" && JsonChar('\"') != "\"";
    if s != "" {
      assert s[0] in s;
    }
  }

  ghost predicate InGap(ps: seq<Piece>, s: string) {
    exists k :: 0 <= k < |ps| - 1 && ps[k].gap == s
  }

  ghost predicate InString(ps: seq<Piece>, s: string) {
    exists k :: 0 <= k < |ps| && (ps[k].str == s || EndsQuoted(ps[k].str, s))
  }

  function PieceSegments(ps: seq<Piece>): seq<string> {
    if ps == [] then [] else Segments(JsonText(ps[0].str)) + [ps[0].gap] + PieceSegments(ps[1..])
  }

  lemma SegmentsOfPiece(lead: string, text: string, tail: string)
    requires '\"' !in lead
    ensures Segments(lead + ("\"" + (text + ("\"" + tail)))) == [lead] + (Segments(text) + Segments(tail))
  {
    QuoteFreeSegments(lead);
    SegmentsAtQuote(lead, text + ("\"" + tail));
    SegmentsAtQuote(text, tail);
  }

  lemma {:induction false} RenderSegments(lead: string, ps: seq<Piece>)
    requires GapsQuoteFree(lead, ps)
    ensures Segments(Render(lead, ps)) == [lead] + PieceSegments(ps)
    decreases |ps|
  {
    hide Segments, JsonText;
    if ps == [] {
      QuoteFreeSegments(lead);
      assert lead + "" == lead;
    } else {
      var g, rest := Segments(JsonText(ps[0].str)), PieceSegments(ps[1..]);
      SegmentsOfPiece(lead, JsonText(ps[0].str), Render(ps[0].gap, ps[1..]));
      RenderSegments(ps[0].gap, ps[1..]);
      assert g + ([ps[0].gap] + rest) == g + [ps[0].gap] + rest;
    }
  }

  lemma InParts(a: seq<string>, gap: string, b: seq<string>, s: string)
    ensures b != [] ==> (s in (a + [gap] + b)[..|a| + |b|] <==> s in a || s == gap || s in b[..|b| - 1])
    ensures b == [] ==> (s in (a + [gap] + b)[..|a| + |b|] <==> s in a)
  {
    if b == [] {
      assert (a + [gap] + b)[..|a| + |b|] == a;
    } else {
      assert (a + [gap] + b)[..|a| + |b|] == a + [gap] + b[..|b| - 1];
    }
  }

  lemma {:induction false} PiecesHold(ps: seq<Piece>, s: string)
    requires ps != [] && Plain(s)
    ensures PieceSegments(ps) != []
    ensures s in PieceSegments(ps)[..|PieceSegments(ps)| - 1] <==> InString(ps, s) || InGap(ps, s)
    decreases |ps|
  {
    var g, rest := Segments(JsonText(ps[0].str)), PieceSegments(ps[1..]);
    JsonSegments(ps[0].str, s);
    assert g == [g[0]] + g[1..];
    assert PieceSegments(ps) == g + [ps[0].gap] + rest;
    InParts(g, ps[0].gap, rest, s);
    if |ps| == 1 {
      assert InString(ps, s) <==> ps[0].str == s || EndsQuoted(ps[0].str, s);
      assert rest == [];
    } else {
      PiecesHold(ps[1..], s);
      InTail(ps, s);
    }
    hide Segments, JsonText, EndsQuoted, InString, InGap, PieceSegments, Plain;
  }

  lemma InTail(ps: seq<Piece>, s: string)
    requires |ps| > 1
    ensures InString(ps, s) <==> ps[0].str == s || EndsQuoted(ps[0].str, s) || InString(ps[1..], s)
    ensures InGap(ps, s) <==> ps[0].gap == s || InGap(ps[1..], s)
  {
    hide EndsQuoted;
  }

  // ---------- ignoring case ----------

  function LowerPieces(ps: seq<Piece>): (r: seq<Piece>)
    ensures |r| == |ps|
    ensures forall i :: 0 <= i < |ps| ==> r[i] == Piece(Lower(ps[i].str), Lower(ps[i].gap))
  {
    if ps == [] then [] else [Piece(Lower(ps[0].str), Lower(ps[0].gap))] + LowerPieces(ps[1..])
  }

  lemma LowerJsonChar(c: char)
    ensures Lower(JsonChar(c)) == JsonChar(LowerChar(c))
  {
  }

  lemma {:induction false} LowerJsonText(s: string)
    ensures Lower(JsonText(s)) == JsonText(Lower(s))
  {
    if s == "" {
    } else {
      LowerJsonChar(s[0]);
      LowerJsonText(s[1..]);
      LowerAppend(JsonChar(s[0]), JsonText(s[1..]));
      assert Lower(s)[1..] == Lower(s[1..]);
    }
  }

  lemma {:induction false} LowerRender(lead: string, ps: seq<Piece>)
    ensures Lower(Render(lead, ps)) == Render(Lower(lead), LowerPieces(ps))
    decreases |ps|
  {
    if ps == [] {
      LowerAppend(lead, "");
    } else {
      var text, tail := JsonText(ps[0].str), ps[0].gap + RenderPieces(ps[1..]);
      LowerRender(ps[0].gap, ps[1..]);
      LowerJsonText(ps[0].str);
      LowerAppend("\"", tail);
      LowerAppend(text, "\"" + tail);
      LowerAppend("\"", text + ("\"" + tail));
      LowerAppend(lead, "\"" + (text + ("\"" + tail)));
      assert LowerPieces(ps)[1..] == LowerPieces(ps[1..]);
    }
  }

  lemma LowerKeeps(s: string, c: char)
    requires c == '\"' || c == '@'
    ensures c in Lower(s) <==> c in s
  {
  }

  lemma LowerGaps(lead: string, ps: seq<Piece>)
    requires GapsQuoteFree(lead, ps)
    ensures GapsQuoteFree(Lower(lead), LowerPieces(ps))
  {
    LowerKeeps(lead, '\"');
    forall p <- LowerPieces(ps)
      ensures '\"' !in p.gap
    {
      var i :| 0 <= i < |ps| && LowerPieces(ps)[i] == p;
      assert ps[i] in ps;
      LowerKeeps(ps[i].gap, '\"');
    }
  }

  lemma InnerOfRender(lead: string, ps: seq<Piece>)
    requires GapsQuoteFree(lead, ps)
    ensures ps == [] ==> Inner(Render(lead, ps)) == []
    ensures PieceSegments(ps) != [] ==> Inner(Render(lead, ps)) == PieceSegments(ps)[..|PieceSegments(ps)| - 1]
  {
    RenderSegments(lead, ps);
    hide Segments, Render;
    var g := PieceSegments(ps);
    assert ([lead] + g)[1..] == g;
    if g != [] {
      assert ([lead] + g)[1..|g|] == g[..|g| - 1];
    }
  }

  lemma QuotedInRender(lead: string, ps: seq<Piece>, s: string)
    requires Plain(s) && GapsQuoteFree(lead, ps)
    ensures Contains(Render(lead, ps), Quoted(s)) <==> InString(ps, s) || InGap(ps, s)
  {
    PlainQuoteFree(s);
    QuotedIsInner(Render(lead, ps), s);
    InnerOfRender(lead, ps);
    if ps == [] {
    } else {
      PiecesHold(ps, s);
    }
    hide Segments, Plain, Contains, Render, Quoted, Inner, PieceSegments, GapsQuoteFree, EndsQuoted;
  }

  // On the text of a JSON value, whatever its strings, the pattern of a plain address matches exactly
  // when the address is a whole string of it, ignoring case, or what follows the last quote inside
  // one, or the punctuation between two: no other part of a longer address, no wildcard. JSON
  // punctuation, numbers and literals hold no '@', so for an address the last case cannot arise.
  lemma AssigneePatternFindsStrings(typed: string, lead: string, ps: seq<Piece>)
    requires Plain(Clean(typed)) && GapsQuoteFree(lead, ps)
    ensures ILike(AssigneePattern(Clean(typed)), Render(lead, ps)) <==>
            InString(LowerPieces(ps), Clean(typed)) || InGap(LowerPieces(ps), Clean(typed))
    ensures '@' in Clean(typed) && (forall p <- ps :: '@' !in p.gap) ==> !InGap(LowerPieces(ps), Clean(typed))
  {
    var s, low := Clean(typed), LowerPieces(ps);
    AssigneePatternQuotes(s);
    SearchPatternIsSubstring(Quoted(s), Render(lead, ps));
    LowerQuoted(s);
    LowerIdempotent(Strip(typed));
    LowerRender(lead, ps);
    LowerGaps(lead, ps);
    QuotedInRender(Lower(lead), low, s);
    if '@' in s && forall p <- ps :: '@' !in p.gap {
      NoGapHolds(ps, s);
    }
    hide ILike, AssigneePattern, Clean, Render, Plain, Contains, InString, InGap, SearchPattern, Quoted;
  }

  lemma NoGapHolds(ps: seq<Piece>, s: string)
    requires '@' in s && forall p <- ps :: '@' !in p.gap
    ensures !InGap(LowerPieces(ps), s)
  {
    if k :| 0 <= k < |ps| - 1 && LowerPieces(ps)[k].gap == s {
      assert ps[k] in ps;
      LowerKeeps(ps[k].gap, '@');
    }
  }

  lemma PlainQuoteFree(s: string)
    requires Plain(s)
    ensures '\"' !in s
  {
    assert JsonChar('\"') != "\"";
  }
}
