/**
 * The full-text search sanitiser of api/search.go (`SanitiseSeach`): every
 * character outside ASCII letters, digits and RE2 white space (`\t`, `\n`,
 * `\f`, `\r`, space) is deleted, then each maximal run of ASCII letters and
 * digits gets a `*` appended (the greedy, leftmost `([A-Za-z0-9]+)` match
 * replaced by `$1*`).
 */
module Search {

  import opened Seqs

  /** ASCII letter or digit: a character of `[A-Za-z0-9]`. */
  predicate IsWordChar(c: char) {
    ('A' <= c <= 'Z') || ('a' <= c <= 'z') || ('0' <= c <= '9')
  }

  /** RE2 `\s`: tab, line feed, form feed, carriage return and space. */
  predicate IsSpace(c: char) {
    c == '\t' || c == '\n' || c == '\U{0C}' || c == '\r' || c == ' '
  }

  /** A character the first replacement keeps. */
  predicate Allowed(c: char) {
    IsWordChar(c) || IsSpace(c)
  }

  /** The first replacement: delete every character matched by `[^A-Za-z0-9\s]`. */
  function Keep(s: string): (r: string)
    ensures |r| <= |s|
    ensures forall i | 0 <= i < |r| :: Allowed(r[i])
  {
    if s == [] then []
    else (if Allowed(s[0]) then [s[0]] else []) + Keep(s[1..])
  }

  /** The length of the run of word characters that starts `s`. */
  function RunLen(s: string): (n: nat)
    ensures n <= |s|
    ensures forall i | 0 <= i < n :: IsWordChar(s[i])
    ensures n < |s| ==> !IsWordChar(s[n])
  {
    if s == [] || !IsWordChar(s[0]) then 0 else 1 + RunLen(s[1..])
  }

  /** The second replacement: every maximal run of word characters, matched leftmost and greedily,
      is written back followed by `*`. */
  function Star(s: string): (r: string)
    ensures |s| <= |r| <= 2 * |s|
    decreases |s|
  {
    if s == [] then []
    else if IsWordChar(s[0]) then
      var n := RunLen(s);
      s[..n] + "*" + Star(s[n..])
    else [s[0]] + Star(s[1..])
  }

  /** `SanitiseSeach`. */
  function Sanitise(search: string): (r: string)
    ensures RemoveStars(r) == Keep(search)
  {
    UnstarStar(Keep(search));
    Star(Keep(search))
  }

  /** `s` with every `*` deleted. */
  function RemoveStars(s: string): string {
    if s == [] then [] else (if s[0] == '*' then [] else [s[0]]) + RemoveStars(s[1..])
  }

  predicate NoStar(s: string) {
    forall i | 0 <= i < |s| :: s[i] != '*'
  }

  lemma {:induction false} RemoveStarsAppend(a: string, b: string)
    ensures RemoveStars(a + b) == RemoveStars(a) + RemoveStars(b)
    decreases |a|
  {
    if a == [] {
      assert a + b == b;
    } else {
      assert (a + b)[1..] == a[1..] + b;
      RemoveStarsAppend(a[1..], b);
    }
  }

  lemma {:induction false} RemoveStarsNoStar(s: string)
    requires NoStar(s)
    ensures RemoveStars(s) == s
    decreases |s|
  {
    if s != [] {
      RemoveStarsNoStar(s[1..]);
    }
  }

  /** Deleting the stars from `Star(s)` gives back `s`, when `s` has none of its own. */
  lemma {:induction false} UnstarStar(s: string)
    requires NoStar(s)
    ensures RemoveStars(Star(s)) == s
    decreases |s|
  {
    if s != [] {
      if IsWordChar(s[0]) {
        var n := RunLen(s);
        UnstarStar(s[n..]);
        UnstarRun(s, n);
      } else {
        UnstarStar(s[1..]);
        UnstarOther(s);
      }
    }
  }

  lemma UnstarRun(s: string, n: nat)
    requires NoStar(s) && s != [] && IsWordChar(s[0]) && n == RunLen(s)
    requires RemoveStars(Star(s[n..])) == s[n..]
    ensures RemoveStars(Star(s)) == s
  {
    NoStarPrefix(s, n);
    StarUnfold(s);
    RunThenStar(s[..n], Star(s[n..]));
    TakeDrop(s, n);
  }

  lemma NoStarPrefix(s: string, n: nat)
    requires NoStar(s) && n <= |s|
    ensures NoStar(s[..n])
  {
    forall i | 0 <= i < n ensures s[..n][i] != '*' {
      assert s[..n][i] == s[i];
    }
  }

  /** Deleting the stars from a star-free run, a star and a rest keeps the run. */
  lemma RunThenStar(run: string, rest: string)
    requires NoStar(run)
    ensures RemoveStars(run + "*" + rest) == run + RemoveStars(rest)
  {
    var starred := run + "*";
    RemoveStarsAppend(starred, rest);
    RemoveStarsAppend(run, "*");
    RemoveStarsNoStar(run);
    StarRemoved();
    RightUnit(run);
  }

  lemma StarRemoved()
    ensures RemoveStars("*") == []
  {
    assert "*"[1..] == [];
  }

  lemma UnstarOther(s: string)
    requires NoStar(s) && s != [] && !IsWordChar(s[0])
    requires RemoveStars(Star(s[1..])) == s[1..]
    ensures RemoveStars(Star(s)) == s
  {
    var rest := Star(s[1..]);
    assert Star(s) == [s[0]] + rest;
    RemoveStarsAppend([s[0]], rest);
    assert RemoveStars([s[0]]) == [s[0]];
    assert [s[0]] + s[1..] == s;
  }

  predicate StarAllowed(r: string) {
    forall i | 0 <= i < |r| :: Allowed(r[i]) || r[i] == '*'
  }

  /** Every output character is allowed or `*`, when the input's are. */
  lemma {:induction false} StarAlphabet(s: string)
    requires forall i | 0 <= i < |s| :: Allowed(s[i])
    ensures StarAllowed(Star(s))
    decreases |s|
  {
    if s != [] {
      if IsWordChar(s[0]) {
        var n := RunLen(s);
        StarAlphabet(s[n..]);
        StarAlphabetRun(s, n);
      } else {
        StarAlphabet(s[1..]);
        StarAlphabetOther(s);
      }
    }
  }

  lemma StarAlphabetRun(s: string, n: nat)
    requires forall i | 0 <= i < |s| :: Allowed(s[i])
    requires s != [] && IsWordChar(s[0]) && n == RunLen(s) && StarAllowed(Star(s[n..]))
    ensures StarAllowed(Star(s))
  {
    forall i | 0 <= i < |Star(s)|
      ensures Allowed(Star(s)[i]) || Star(s)[i] == '*'
    {
      StarRunChar(s, n, i);
    }
  }

  lemma StarRunChar(s: string, n: nat, i: nat)
    requires forall i | 0 <= i < |s| :: Allowed(s[i])
    requires s != [] && IsWordChar(s[0]) && n == RunLen(s) && StarAllowed(Star(s[n..]))
    requires i < |Star(s)|
    ensures Allowed(Star(s)[i]) || Star(s)[i] == '*'
  {
    StarUnfold(s);
    var run, rest := s[..n] + "*", Star(s[n..]);
    ConcatIndex(run, rest, i);
    if i < |run| {
      ConcatIndex(s[..n], "*", i);
    }
  }

  /** `Star` on a string that starts with a word character. */
  lemma StarUnfold(s: string)
    requires s != [] && IsWordChar(s[0])
    ensures Star(s) == s[..RunLen(s)] + "*" + Star(s[RunLen(s)..])
  {
  }

  lemma StarOther(s: string)
    requires s != [] && !IsWordChar(s[0])
    ensures Star(s) == [s[0]] + Star(s[1..])
  {
  }

  lemma StarAlphabetOther(s: string)
    requires forall i | 0 <= i < |s| :: Allowed(s[i])
    requires s != [] && !IsWordChar(s[0]) && StarAllowed(Star(s[1..]))
    ensures StarAllowed(Star(s))
  {
    var rest := Star(s[1..]);
    StarOther(s);
    var r := [s[0]] + rest;
    forall i | 0 <= i < |r|
      ensures Allowed(r[i]) || r[i] == '*'
    {
      ConcatIndex([s[0]], rest, i);
    }
  }

  /** Every output character is an ASCII letter or digit, RE2 white space, or `*`. */
  lemma SanitiseAlphabet(search: string)
    ensures forall i | 0 <= i < |Sanitise(search)| ::
      var c := Sanitise(search)[i];
      IsWordChar(c) || IsSpace(c) || c == '*'
  {
    StarAlphabet(Keep(search));
  }

  /** Where `Star` puts its stars: right after a word character, and after every last character of
      a run; so every `*` follows a run and every run is followed by exactly one `*`. */
  predicate StarsAtRunEnds(r: string) {
    (forall i | 0 <= i < |r| && r[i] == '*' :: i > 0 && IsWordChar(r[i - 1])) &&
    (forall i | 0 <= i < |r| && IsWordChar(r[i]) :: i + 1 < |r| && (IsWordChar(r[i + 1]) || r[i + 1] == '*'))
  }

  /** Gluing a run and its star to a rest that does not begin with a word character. */
  lemma RunThenRest(run: string, rest: string)
    requires run != [] && forall i | 0 <= i < |run| :: IsWordChar(run[i])
    requires StarsAtRunEnds(rest)
    ensures StarsAtRunEnds(run + "*" + rest)
  {
    var r := run + "*" + rest;
    var n := |run|;
    forall i | 0 <= i < |r| && r[i] == '*'
      ensures i > 0 && IsWordChar(r[i - 1])
    {
      if i > n + 1 {
        assert r[i] == rest[i - n - 1];
        assert r[i - 1] == rest[i - n - 2];
      }
    }
    forall i | 0 <= i < |r| && IsWordChar(r[i])
      ensures i + 1 < |r| && (IsWordChar(r[i + 1]) || r[i + 1] == '*')
    {
      if i > n {
        assert r[i] == rest[i - n - 1];
        assert i + 1 < |r| ==> r[i + 1] == rest[i - n];
      }
    }
  }

  /** Gluing a non-word character to a rest. */
  lemma OtherThenRest(c: char, rest: string)
    requires !IsWordChar(c) && c != '*'
    requires StarsAtRunEnds(rest)
    ensures StarsAtRunEnds([c] + rest)
  {
    var r := [c] + rest;
    forall i | 0 <= i < |r| && r[i] == '*'
      ensures i > 0 && IsWordChar(r[i - 1])
    {
      assert r[i] == rest[i - 1];
      if i > 1 {
        assert r[i - 1] == rest[i - 2];
      }
    }
    forall i | 0 <= i < |r| && IsWordChar(r[i])
      ensures i + 1 < |r| && (IsWordChar(r[i + 1]) || r[i + 1] == '*')
    {
      assert r[i] == rest[i - 1];
      assert i + 1 < |r| ==> r[i + 1] == rest[i];
    }
  }

  lemma {:induction false} StarRuns(s: string)
    requires NoStar(s)
    ensures StarsAtRunEnds(Star(s))
    ensures Star(s) != [] ==> Star(s)[0] == s[0]
    decreases |s|
  {
    if s != [] {
      if IsWordChar(s[0]) {
        var n := RunLen(s);
        StarRuns(s[n..]);
        assert n < |s| ==> s[n..][0] == s[n];
        RunThenRest(s[..n], Star(s[n..]));
      } else {
        StarRuns(s[1..]);
        assert |s| > 1 ==> s[1..][0] == s[1];
        OtherThenRest(s[0], Star(s[1..]));
      }
    }
  }

  /** Each maximal run of ASCII alphanumerics in the output is followed by exactly one `*`, and
      every `*` follows such a run. */
  lemma SanitiseStars(search: string)
    ensures StarsAtRunEnds(Sanitise(search))
  {
    StarRuns(Keep(search));
  }

  /** An input with no allowed character, such as one of punctuation only, gives the empty string;
      any other input gives a non-empty one. */
  lemma EmptyIffNothingKept(search: string)
    ensures Sanitise(search) == [] <==> forall i | 0 <= i < |search| :: !Allowed(search[i])
  {
    StarEmpty(Keep(search));
    KeepEmpty(search);
  }

  lemma StarEmpty(s: string)
    ensures Star(s) == [] <==> s == []
  {
    if s != [] && IsWordChar(s[0]) {
      assert |Star(s)| >= |s[..RunLen(s)] + "*"|;
    }
  }

  lemma {:induction false} KeepEmpty(s: string)
    ensures Keep(s) == [] <==> forall i | 0 <= i < |s| :: !Allowed(s[i])
    decreases |s|
  {
    if s != [] {
      KeepEmpty(s[1..]);
      assert forall i | 1 <= i < |s| :: s[1..][i - 1] == s[i];
      if Allowed(s[0]) {
        assert Keep(s)[0] == s[0];
      } else {
        assert Keep(s) == Keep(s[1..]);
      }
    }
  }

  /** Keeping the allowed characters of a string whose characters are allowed or `*` is deleting its stars. */
  lemma {:induction false} KeepIsRemoveStars(s: string)
    requires forall i | 0 <= i < |s| :: Allowed(s[i]) || s[i] == '*'
    ensures Keep(s) == RemoveStars(s)
    decreases |s|
  {
    if s != [] {
      KeepIsRemoveStars(s[1..]);
    }
  }

  /** Sanitising twice is sanitising once: the first replacement deletes the stars the second added. */
  lemma Idempotent(search: string)
    ensures Sanitise(Sanitise(search)) == Sanitise(search)
  {
    var kept := Keep(search);
    StarAlphabet(kept);
    KeepIsRemoveStars(Star(kept));
    UnstarStar(kept);
  }

  /** The first case of api/api_test/search_test.go. */
  lemma SydAirport()
    ensures Sanitise("syd airport") == "syd* airport*"
  {
    SydKept();
    SydStarred();
  }

  lemma SydKept()
    ensures Keep("syd airport") == "syd airport"
  {
    SydSplit();
    KeepAppend("syd", " airport");
    SydWord();
    Airport();
  }

  lemma SydStarred()
    ensures Star("syd airport") == "syd* airport*"
  {
    SydSplit();
    SydWord();
    Airport();
    StarWordThen("syd", " airport");
    SydJoin();
  }

  lemma SydSplit()
    ensures "syd" + " airport" == "syd airport"
  {
  }

  /** The second case of api/api_test/search_test.go. */
  lemma InternationalAirport()
    ensures Sanitise("international airport") == "international* airport*"
  {
    InternationalKeptAll();
    InternationalStarred();
  }

  lemma InternationalKeptAll()
    ensures Keep("international airport") == "international airport"
  {
    InternationalSplit();
    KeepAppend("international", " airport");
    InternationalWord();
    Airport();
  }

  lemma InternationalStarred()
    ensures Star("international airport") == "international* airport*"
  {
    InternationalSplit();
    InternationalChars();
    Airport();
    StarWordThen("international", " airport");
    InternationalJoin();
  }

  lemma InternationalSplit()
    ensures "international" + " airport" == "international airport"
  {
  }

  lemma Airport()
    ensures Keep(" airport") == " airport" && Star(" airport") == " airport*" && !IsWordChar(" airport"[0])
  {
    AirportKept();
    AirportStarred();
  }

  lemma AirportKept()
    ensures Keep(" airport") == " airport"
  {
    KeepAllAllowed(" airport");
  }

  lemma AirportStarred()
    ensures Star(" airport") == " airport*"
  {
    var s := " airport";
    assert forall i | 1 <= i < |s| :: IsWordChar(s[i]);
    SpaceThenWord(s);
    assert s + "*" == " airport*";
  }

  /** A space, then one word: the space is kept and the word starred. */
  lemma SpaceThenWord(s: string)
    requires |s| >= 2 && s[0] == ' ' && forall i | 1 <= i < |s| :: IsWordChar(s[i])
    ensures Star(s) == s + "*"
  {
    var w := s[1..];
    assert forall i | 0 <= i < |w| :: IsWordChar(w[i]);
    WordStarred(w);
    StarOther(s);
    assert s == [s[0]] + w;
    Assoc([s[0]], w, "*");
  }

  /** A single word gets one star. */
  lemma WordStarred(w: string)
    requires w != [] && forall i | 0 <= i < |w| :: IsWordChar(w[i])
    ensures Star(w) == w + "*"
  {
    StarWordThen(w, []);
    RightUnit(w);
    RightUnit(w + "*");
  }

  lemma SydWord()
    ensures Keep("syd") == "syd" && forall i | 0 <= i < |"syd"| :: IsWordChar("syd"[i])
  {
    assert forall i | 0 <= i < |"syd"| :: IsWordChar("syd"[i]);
    KeepAllAllowed("syd");
  }

  lemma InternationalWord()
    ensures Keep("international") == "international"
    ensures forall i | 0 <= i < |"international"| :: IsWordChar("international"[i])
  {
    InternationalChars();
    KeepAllAllowed("international");
  }

  lemma InternationalChars()
    ensures forall i | 0 <= i < |"international"| :: IsWordChar("international"[i])
  {
  }

  lemma SydJoin()
    ensures "syd" + "*" + " airport*" == "syd* airport*"
  {
  }

  lemma InternationalJoin()
    ensures "international" + "*" + " airport*" == "international* airport*"
  {
  }

  lemma {:induction false} KeepAppend(a: string, b: string)
    ensures Keep(a + b) == Keep(a) + Keep(b)
    decreases |a|
  {
    if a == [] {
      assert a + b == b;
    } else {
      assert (a + b)[1..] == a[1..] + b;
      KeepAppend(a[1..], b);
    }
  }

  lemma {:induction false} RunLenWord(w: string, rest: string)
    requires forall i | 0 <= i < |w| :: IsWordChar(w[i])
    requires rest == [] || !IsWordChar(rest[0])
    ensures RunLen(w + rest) == |w|
    decreases |w|
  {
    if w == [] {
      assert w + rest == rest;
    } else {
      assert (w + rest)[1..] == w[1..] + rest;
      RunLenWord(w[1..], rest);
    }
  }

  /** A whole run followed by something that does not extend it gets its star. */
  lemma StarWordThen(w: string, rest: string)
    requires w != [] && forall i | 0 <= i < |w| :: IsWordChar(w[i])
    requires rest == [] || !IsWordChar(rest[0])
    ensures Star(w + rest) == w + "*" + Star(rest)
  {
    RunLenWord(w, rest);
    assert (w + rest)[..|w|] == w && (w + rest)[|w|..] == rest;
  }

  lemma {:induction false} KeepAllAllowed(s: string)
    requires forall i | 0 <= i < |s| :: Allowed(s[i])
    ensures Keep(s) == s
    decreases |s|
  {
    if s != [] {
      KeepAllAllowed(s[1..]);
    }
  }
}
