// The string operations of the service, on ASCII text.
module Text {

  // str.isspace on ASCII: tab, line feed, vertical tab, form feed, carriage return, 0x1c..0x1f and space.
  predicate IsSpace(c: char) {
    c == ' ' || 9 as char <= c <= 13 as char || 28 as char <= c <= 31 as char
  }

  predicate IsUpper(c: char) {
    'A' <= c <= 'Z'
  }

  function LowerChar(c: char): char {
    if IsUpper(c) then ((c as int) + 32) as char else c
  }

  // str.lower
  function Lower(s: string): (r: string)
    ensures |r| == |s|
    ensures forall i :: 0 <= i < |s| ==> r[i] == LowerChar(s[i])
  {
    if s == "" then "" else [LowerChar(s[0])] + Lower(s[1..])
  }

  function StripLeft(s: string): string {
    if s != "" && IsSpace(s[0]) then StripLeft(s[1..]) else s
  }

  function StripRight(s: string): string {
    if s != "" && IsSpace(s[|s| - 1]) then StripRight(s[..|s| - 1]) else s
  }

  // str.strip
  function Strip(s: string): string {
    StripRight(StripLeft(s))
  }

  predicate Trimmed(s: string) {
    s == "" || (!IsSpace(s[0]) && !IsSpace(s[|s| - 1]))
  }

  // value.strip().lower(), the key form of user names, email addresses and roles.
  function Clean(s: string): string {
    Lower(Strip(s))
  }

  lemma {:induction false} StripLeftSuffix(s: string)
    ensures exists n :: 0 <= n <= |s| && StripLeft(s) == s[n..]
    ensures StripLeft(s) != "" ==> !IsSpace(StripLeft(s)[0])
  {
    if s != "" && IsSpace(s[0]) {
      StripLeftSuffix(s[1..]);
      var n :| 0 <= n <= |s[1..]| && StripLeft(s[1..]) == s[1..][n..];
      assert s[1..][n..] == s[n + 1..];
    } else {
      assert s[0..] == s;
    }
  }

  lemma {:induction false} StripRightPrefix(s: string)
    ensures exists n :: 0 <= n <= |s| && StripRight(s) == s[..n]
    ensures StripRight(s) != "" ==> !IsSpace(StripRight(s)[|StripRight(s)| - 1])
  {
    if s != "" && IsSpace(s[|s| - 1]) {
      StripRightPrefix(s[..|s| - 1]);
      var n :| 0 <= n <= |s| - 1 && StripRight(s[..|s| - 1]) == s[..|s| - 1][..n];
      assert s[..|s| - 1][..n] == s[..n];
    } else {
      assert s[..|s|] == s;
    }
  }

  // Stripping leaves a piece of the text without space at either end.
  lemma StripTrims(s: string)
    ensures Trimmed(Strip(s))
    ensures exists i, j :: 0 <= i <= j <= |s| && Strip(s) == s[i..j]
  {
    StripLeftSuffix(s);
    var left := StripLeft(s);
    var i :| 0 <= i <= |s| && left == s[i..];
    StripRightPrefix(left);
    var n :| 0 <= n <= |left| && StripRight(left) == left[..n];
    assert s[i..][..n] == s[i..i + n];
    assert Strip(s) == s[i..i + n];
  }

  // Outside the piece from i to j there is only space.
  ghost predicate SpaceAround(s: string, i: nat, j: nat) {
    i <= j <= |s| && (forall k :: 0 <= k < i || j <= k < |s| ==> IsSpace(s[k]))
  }

  lemma {:induction false} StripLeftDrops(s: string) returns (n: nat)
    ensures SpaceAround(s, n, |s|) && StripLeft(s) == s[n..]
  {
    n := 0;
    if s != "" && IsSpace(s[0]) {
      var m := StripLeftDrops(s[1..]);
      n := m + 1;
      forall k | 0 <= k < n
        ensures IsSpace(s[k])
      {
        assert k > 0 ==> s[k] == s[1..][k - 1];
      }
      assert s[1..][m..] == s[n..];
    }
  }

  lemma {:induction false} StripRightDrops(s: string) returns (n: nat)
    ensures SpaceAround(s, 0, n) && StripRight(s) == s[..n]
  {
    n := |s|;
    if s != "" && IsSpace(s[|s| - 1]) {
      var t := s[..|s| - 1];
      n := StripRightDrops(t);
      forall k | n <= k < |s|
        ensures IsSpace(s[k])
      {
        assert k < |t| ==> s[k] == t[k];
      }
      assert t[..n] == s[..n];
    }
  }

  // What stripping removes is only space.
  lemma StripDropsSpace(s: string) returns (i: nat, j: nat)
    ensures SpaceAround(s, i, j) && Strip(s) == s[i..j]
  {
    i := StripLeftDrops(s);
    var left := StripLeft(s);
    var n := StripRightDrops(left);
    j := i + n;
    forall k | j <= k < |s|
      ensures IsSpace(s[k])
    {
      assert s[k] == left[k - i];
    }
    assert left[..n] == s[i..j];
  }

  lemma StripTrimmed(s: string)
    requires Trimmed(s)
    ensures Strip(s) == s
  {
  }

  lemma {:induction false} LowerAppend(a: string, b: string)
    ensures Lower(a + b) == Lower(a) + Lower(b)
  {
  }

  lemma {:induction false} LowerStripLeft(s: string)
    ensures StripLeft(Lower(s)) == Lower(StripLeft(s))
  {
    if s != "" && IsSpace(s[0]) {
      LowerStripLeft(s[1..]);
      assert Lower(s)[1..] == Lower(s[1..]);
    }
  }

  lemma {:induction false} LowerStripRight(s: string)
    ensures StripRight(Lower(s)) == Lower(StripRight(s))
  {
    if s != "" && IsSpace(s[|s| - 1]) {
      LowerStripRight(s[..|s| - 1]);
      assert Lower(s)[..|s| - 1] == Lower(s[..|s| - 1]);
    }
  }

  // Case and outer space do not interfere.
  lemma LowerStrip(s: string)
    ensures Strip(Lower(s)) == Lower(Strip(s))
  {
    LowerStripLeft(s);
    LowerStripRight(StripLeft(s));
  }

  lemma LowerIdempotent(s: string)
    ensures Lower(Lower(s)) == Lower(s)
  {
  }

  lemma CleanTrims(s: string)
    ensures Trimmed(Clean(s))
  {
    StripTrims(s);
  }

  // Cleaning is a normal form: a key that is cleaned again stays the same key.
  lemma CleanIdempotent(s: string)
    ensures Clean(Clean(s)) == Clean(s)
  {
    CleanTrims(s);
    StripTrimmed(Clean(s));
    LowerIdempotent(Strip(s));
  }

  // Trimmed text has the same key whether or not it is stripped first.
  lemma CleanTrimmed(s: string)
    requires Trimmed(s)
    ensures Clean(s) == Lower(s)
  {
  }

  predicate NoCapitals(s: string) {
    forall i :: 0 <= i < |s| ==> !IsUpper(s[i])
  }

  // Trimmed text without capitals is already clean.
  lemma CleanFixed(s: string)
    requires Trimmed(s) && NoCapitals(s)
    ensures Clean(s) == s
  {
  }

  lemma {:induction false} LowerFixed(s: string)
    requires NoCapitals(s)
    ensures Lower(s) == s
  {
  }
}
