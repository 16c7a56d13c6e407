/** Search: the LIKE pattern built from a search string, against what LIKE ... ESCAPE '\' accepts.

    `fold` is the database's comparison of single characters: SQLite folds ASCII letters, Postgres
    compares them as they are. */
module LikePatterns {

  /** SQLite's LIKE folds ASCII letters only. */
  function AsciiLower(c: char): char {
    if 'A' <= c <= 'Z' then (c as int + 32) as char else c
  }

  function Same(c: char): char {
    c
  }

  /** title LIKE p ESCAPE '\'. A pattern that ends in the escape character matches nothing. */
  predicate Like(fold: char -> char, p: string, t: string)
    decreases |p| + |t|
  {
    if p == [] then t == []
    else if p[0] == '%' then Like(fold, p[1..], t) || (t != [] && Like(fold, p, t[1..]))
    else if t == [] then false
    else if p[0] == '_' then Like(fold, p[1..], t[1..])
    else if p[0] == '\\' then |p| >= 2 && fold(p[1]) == fold(t[0]) && Like(fold, p[2..], t[1..])
    else fold(p[0]) == fold(t[0]) && Like(fold, p[1..], t[1..])
  }

  function EscapeChar(c: char): string {
    if c == '\\' || c == '%' || c == '_' then ['\\', c] else [c]
  }

  /** escapeLikePattern. */
  function Escape(s: string): string {
    if s == [] then [] else EscapeChar(s[0]) + Escape(s[1..])
  }

  /** likePattern: an empty or unknown search type means "contains". */
  function LikePattern(search: string, searchType: string): string {
    if searchType == "starts_with" then Escape(search) + "%"
    else if searchType == "ends_with" then "%" + Escape(search)
    else "%" + Escape(search) + "%"
  }

  // ---- what the searches promise ----

  predicate Equal(fold: char -> char, a: string, b: string) {
    |a| == |b| && forall i | 0 <= i < |a| :: fold(a[i]) == fold(b[i])
  }

  predicate OccursAt(fold: char -> char, t: string, s: string, k: nat) {
    k + |s| <= |t| && Equal(fold, s, t[k..k + |s|])
  }

  ghost predicate Finds(fold: char -> char, t: string, s: string, searchType: string) {
    if searchType == "starts_with" then OccursAt(fold, t, s, 0)
    else if searchType == "ends_with" then |s| <= |t| && OccursAt(fold, t, s, |t| - |s|)
    else exists k: nat :: OccursAt(fold, t, s, k)
  }

  lemma EqualSplit(fold: char -> char, a: string, b: string)
    requires a != [] && b != []
    ensures Equal(fold, a, b) <==> fold(a[0]) == fold(b[0]) && Equal(fold, a[1..], b[1..])
  {
    if fold(a[0]) == fold(b[0]) && Equal(fold, a[1..], b[1..]) {
      forall i | 0 <= i < |a| ensures fold(a[i]) == fold(b[i]) {
        if i > 0 { assert a[i] == a[1..][i - 1] && b[i] == b[1..][i - 1]; }
      }
    }
  }

  /** One escaped character matches that character and nothing else. */
  lemma EscapedChar(fold: char -> char, c: char, rest: string, t: string)
    ensures Like(fold, EscapeChar(c) + rest, t) <==> t != [] && fold(c) == fold(t[0]) && Like(fold, rest, t[1..])
  {
    var p := EscapeChar(c) + rest;
    assert p[|EscapeChar(c)|..] == rest;
  }

  /** An escaped string matches itself at the front, whatever characters it is made of. */
  lemma {:induction false} EscapedPrefix(fold: char -> char, s: string, rest: string, t: string)
    ensures Like(fold, Escape(s) + rest, t) <==> OccursAt(fold, t, s, 0) && Like(fold, rest, t[|s|..])
  {
    if s == [] {
      assert Escape(s) + rest == rest && t[0..0] == [];
    } else {
      assert Escape(s) + rest == EscapeChar(s[0]) + (Escape(s[1..]) + rest);
      EscapedChar(fold, s[0], Escape(s[1..]) + rest, t);
      if t != [] {
        EscapedPrefix(fold, s[1..], rest, t[1..]);
        if |s| <= |t| {
          EqualSplit(fold, s, t[..|s|]);
          assert t[..|s|][1..] == t[1..][..|s| - 1];
          assert t[1..][|s| - 1..] == t[|s|..];
        }
      }
    }
  }

  /** A leading % skips any number of characters. */
  lemma {:induction false} LeadingPercent(fold: char -> char, rest: string, t: string)
    ensures Like(fold, "%" + rest, t) <==> exists k: nat | k <= |t| :: Like(fold, rest, t[k..])
    decreases |t|
  {
    var p := "%" + rest;
    assert p[1..] == rest && t[0..] == t;
    if t != [] {
      LeadingPercent(fold, rest, t[1..]);
      if k: nat :| k <= |t| && Like(fold, rest, t[k..]) {
        if k > 0 { assert t[1..][k - 1..] == t[k..]; }
      }
      if k: nat :| k <= |t[1..]| && Like(fold, rest, t[1..][k..]) {
        assert t[1..][k..] == t[k + 1..];
      }
    }
  }

  lemma OnlyPercent(fold: char -> char, t: string)
    ensures Like(fold, "%", t)
  {
    LeadingPercent(fold, "", t);
    assert "%" + "" == "%" && t[|t|..] == [];
  }

  lemma PrefixOfSuffix(fold: char -> char, t: string, s: string, k: nat)
    requires k <= |t|
    ensures OccursAt(fold, t[k..], s, 0) <==> OccursAt(fold, t, s, k)
  {
    if k + |s| <= |t| { assert t[k..][0..|s|] == t[k..k + |s|]; }
  }

  lemma StartsWithMeans(fold: char -> char, t: string, s: string)
    ensures Like(fold, Escape(s) + "%", t) <==> OccursAt(fold, t, s, 0)
  {
    EscapedPrefix(fold, s, "%", t);
    if |s| <= |t| { OnlyPercent(fold, t[|s|..]); }
  }

  lemma EndsAt(fold: char -> char, t: string, s: string, k: nat)
    requires k <= |t|
    ensures Like(fold, Escape(s), t[k..]) <==> k + |s| == |t| && OccursAt(fold, t, s, k)
  {
    EscapedPrefix(fold, s, "", t[k..]);
    assert Escape(s) + "" == Escape(s);
    PrefixOfSuffix(fold, t, s, k);
  }

  lemma EndsWithMeans(fold: char -> char, t: string, s: string)
    ensures Like(fold, "%" + Escape(s), t) <==> |s| <= |t| && OccursAt(fold, t, s, |t| - |s|)
  {
    LeadingPercent(fold, Escape(s), t);
    if k: nat :| k <= |t| && Like(fold, Escape(s), t[k..]) { EndsAt(fold, t, s, k); }
    if |s| <= |t| { EndsAt(fold, t, s, |t| - |s|); }
  }

  lemma ContainsMeans(fold: char -> char, t: string, s: string)
    ensures Like(fold, "%" + Escape(s) + "%", t) <==> exists k: nat :: OccursAt(fold, t, s, k)
  {
    LeadingPercent(fold, Escape(s) + "%", t);
    assert "%" + (Escape(s) + "%") == "%" + Escape(s) + "%";
    forall k: nat | k <= |t| ensures Like(fold, Escape(s) + "%", t[k..]) <==> OccursAt(fold, t, s, k) {
      StartsWithMeans(fold, t[k..], s);
      PrefixOfSuffix(fold, t, s, k);
    }
  }

  /** The database accepts the pattern exactly for the titles that contain, start with or end with
      the search string, taken literally. */
  lemma SearchIsLiteral(fold: char -> char, t: string, s: string, searchType: string)
    ensures Like(fold, LikePattern(s, searchType), t) <==> Finds(fold, t, s, searchType)
  {
    if searchType == "starts_with" { StartsWithMeans(fold, t, s); }
    else if searchType == "ends_with" { EndsWithMeans(fold, t, s); }
    else { ContainsMeans(fold, t, s); }
  }

  // ---- the documented case-insensitivity ----

  /** Two ways of comparing characters treat c alike. */
  ghost predicate SameOn(f: char -> char, g: char -> char, c: char) {
    forall d :: f(c) == f(d) <==> g(c) == g(d)
  }

  /** They give the same verdict on a title. */
  predicate Agree(f: char -> char, g: char -> char, s: string, searchType: string, t: string) {
    Like(f, LikePattern(s, searchType), t) <==> Like(g, LikePattern(s, searchType), t)
  }

  lemma OccursSame(f: char -> char, g: char -> char, t: string, s: string, k: nat)
    requires forall i | 0 <= i < |s| :: SameOn(f, g, s[i])
    ensures OccursAt(f, t, s, k) <==> OccursAt(g, t, s, k)
  {
    if k + |s| <= |t| {
      forall i | 0 <= i < |s| ensures f(s[i]) == f(t[k..k + |s|][i]) <==> g(s[i]) == g(t[k..k + |s|][i]) {
        assert SameOn(f, g, s[i]);
      }
    }
  }

  lemma SameFinds(f: char -> char, g: char -> char, t: string, s: string, searchType: string)
    requires forall i | 0 <= i < |s| :: SameOn(f, g, s[i])
    ensures Finds(f, t, s, searchType) <==> Finds(g, t, s, searchType)
  {
    forall k: nat ensures OccursAt(f, t, s, k) <==> OccursAt(g, t, s, k) { OccursSame(f, g, t, s, k); }
  }

  /** Replacing one character by one that only f takes for the same gives a title only f finds. */
  lemma ReplacedFoundByOne(f: char -> char, g: char -> char, s: string, i: nat, d: char, searchType: string)
    requires i < |s| && f(s[i]) == f(d) && g(s[i]) != g(d)
    ensures !Agree(f, g, s, searchType, s[i := d])
  {
    var t := s[i := d];
    SearchIsLiteral(f, t, s, searchType);
    SearchIsLiteral(g, t, s, searchType);
    assert t[0..|s|] == t;
    assert OccursAt(f, t, s, 0);
    forall k: nat ensures !OccursAt(g, t, s, k) {
      if k == 0 { assert g(s[i]) != g(t[i]); }
    }
  }

  /** Two databases that compare characters differently agree on every title exactly when they treat
      every character of the search string alike. */
  lemma AgreeIffSameOn(f: char -> char, g: char -> char, s: string, searchType: string)
    ensures (forall t :: Agree(f, g, s, searchType, t)) <==> forall i | 0 <= i < |s| :: SameOn(f, g, s[i])
  {
    if i :| 0 <= i < |s| && !SameOn(f, g, s[i]) {
      var d :| !(f(s[i]) == f(d) <==> g(s[i]) == g(d));
      if f(s[i]) == f(d) {
        ReplacedFoundByOne(f, g, s, i, d, searchType);
      } else {
        ReplacedFoundByOne(g, f, s, i, d, searchType);
      }
      assert !Agree(f, g, s, searchType, s[i := d]);
    } else {
      forall t ensures Agree(f, g, s, searchType, t) {
        SearchIsLiteral(f, t, s, searchType);
        SearchIsLiteral(g, t, s, searchType);
        SameFinds(f, g, t, s, searchType);
      }
    }
  }

  /** An ASCII letter. */
  predicate Letter(c: char) {
    'A' <= c <= 'Z' || 'a' <= c <= 'z'
  }

  function FlipCase(c: char): char
    requires Letter(c)
  {
    if c <= 'Z' then (c as int + 32) as char else (c as int - 32) as char
  }

  lemma LetterDiffers(c: char)
    ensures SameOn(Same, AsciiLower, c) <==> !Letter(c)
  {
    if Letter(c) {
      assert AsciiLower(c) == AsciiLower(FlipCase(c)) && Same(c) != Same(FlipCase(c));
    }
  }

  /** SQLite and Postgres agree on every title exactly when the search string has no ASCII letter. */
  lemma StoresAgreeIffNoLetters(s: string, searchType: string)
    ensures (forall t :: Agree(Same, AsciiLower, s, searchType, t)) <==> forall i | 0 <= i < |s| :: !Letter(s[i])
  {
    AgreeIffSameOn(Same, AsciiLower, s, searchType);
    forall i | 0 <= i < |s| ensures SameOn(Same, AsciiLower, s[i]) <==> !Letter(s[i]) { LetterDiffers(s[i]); }
  }

  /** Beyond ASCII neither store ignores case, as the search option is documented to. */
  lemma AccentsAreNotFolded()
    ensures !Like(AsciiLower, LikePattern("\U{00e9}", "contains"), "\U{00c9}")
    ensures !Like(Same, LikePattern("\U{00e9}", "contains"), "\U{00c9}")
  {
    SearchIsLiteral(AsciiLower, "\U{00c9}", "\U{00e9}", "contains");
    SearchIsLiteral(Same, "\U{00c9}", "\U{00e9}", "contains");
  }
}
