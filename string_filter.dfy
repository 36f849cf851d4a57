/**
 * `filter_string_list` (project.py): keep the strings that match good
 * patterns, once per matching pattern, then drop those that match a bad one.
 * `matches(p, s)` stands for `re.search(p, s, re.IGNORECASE)` being truthy.
 */
module StringFilter {
  import opened Wrappers

  /** One copy of `s` for each pattern of `patterns` that matches it, in pattern order. */
  function Copies(s: string, patterns: seq<string>, matches: (string, string) -> bool): seq<string> {
    if patterns == [] then []
    else
      var last := patterns[|patterns| - 1];
      Copies(s, patterns[..|patterns| - 1], matches) + (if matches(last, s) then [s] else [])
  }

  /** The first stage with good patterns: each string's copies, in input order. */
  function Selecting(strings: seq<string>, good: seq<string>, matches: (string, string) -> bool): seq<string> {
    if strings == [] then []
    else Selecting(strings[..|strings| - 1], good, matches) + Copies(strings[|strings| - 1], good, matches)
  }

  /** The first stage: an empty good-pattern list (or None) keeps a copy of the input. */
  function Selected(strings: seq<string>, good: seq<string>, matches: (string, string) -> bool): seq<string> {
    if good == [] then strings else Selecting(strings, good, matches)
  }

  /** `any(re.search(p, s) for p in bad)`. */
  predicate MatchesAny(bad: seq<string>, s: string, matches: (string, string) -> bool) {
    exists p :: p in bad && matches(p, s)
  }

  /** The second stage: the strings no bad pattern matches, in order. */
  function Cleaned(strings: seq<string>, bad: seq<string>, matches: (string, string) -> bool): seq<string> {
    if strings == [] then []
    else
      var last := strings[|strings| - 1];
      Cleaned(strings[..|strings| - 1], bad, matches) + (if MatchesAny(bad, last, matches) then [] else [last])
  }

  /** The whole filter; an empty bad-pattern list (or None) skips the second stage. */
  function Filtered(strings: seq<string>, good: seq<string>, bad: Option<seq<string>>,
                    matches: (string, string) -> bool): seq<string>
  {
    var kept := Selected(strings, good, matches);
    if bad.None? || bad.value == [] then kept else Cleaned(kept, bad.value, matches)
  }

  /** Python's `if xs:` on an optional list: false for None and for []. */
  predicate Truthy(xs: Option<seq<string>>) {
    xs.Some? && xs.value != []
  }

  method FilterStringList(filteredStrings: seq<string>, goodPatterns: Option<seq<string>>,
                          badPatterns: Option<seq<string>>, matches: (string, string) -> bool)
    returns (r: seq<string>)
    ensures r == Filtered(filteredStrings, if goodPatterns.Some? then goodPatterns.value else [], badPatterns, matches)
  {
    var result: seq<string> := [];
    var goodString: seq<string> := [];
    if Truthy(goodPatterns) {
      var good := goodPatterns.value;
      for i := 0 to |filteredStrings|
        invariant goodString == Selecting(filteredStrings[..i], good, matches)
      {
        var link := filteredStrings[i];
        for j := 0 to |good|
          invariant goodString == Selecting(filteredStrings[..i], good, matches) + Copies(link, good[..j], matches)
        {
          if matches(good[j], link) {
            goodString := goodString + [link];
          }
          assert good[..j + 1][..j] == good[..j];
        }
        assert good[..|good|] == good;
        assert filteredStrings[..i + 1][..i] == filteredStrings[..i];
      }
      assert filteredStrings[..|filteredStrings|] == filteredStrings;
    } else {
      goodString := filteredStrings;
    }
    if Truthy(badPatterns) {
      var bad := badPatterns.value;
      for i := 0 to |goodString|
        invariant result == Cleaned(goodString[..i], bad, matches)
      {
        var foundLink := goodString[i];
        if !MatchesAny(bad, foundLink, matches) {
          result := result + [foundLink];
        }
        assert goodString[..i + 1][..i] == goodString[..i];
      }
      assert goodString[..|goodString|] == goodString;
      return result;
    } else {
      return goodString;
    }
  }

  /** How many patterns of `patterns` match `s`. */
  function MatchCount(s: string, patterns: seq<string>, matches: (string, string) -> bool): nat {
    if patterns == [] then 0
    else (if matches(patterns[0], s) then 1 else 0) + MatchCount(s, patterns[1..], matches)
  }

  lemma {:induction false} MatchCountSnoc(s: string, patterns: seq<string>, matches: (string, string) -> bool)
    requires patterns != []
    ensures MatchCount(s, patterns, matches) ==
      MatchCount(s, patterns[..|patterns| - 1], matches) + (if matches(patterns[|patterns| - 1], s) then 1 else 0)
  {
    if |patterns| > 1 {
      assert patterns[1..][..|patterns[1..]| - 1] == patterns[..|patterns| - 1][1..];
      MatchCountSnoc(s, patterns[1..], matches);
    }
  }

  /** The copies of `s` are `s` itself, once per matching pattern. */
  lemma {:induction false} CopiesCount(s: string, patterns: seq<string>, matches: (string, string) -> bool, t: string)
    ensures multiset(Copies(s, patterns, matches))[t] == if t == s then MatchCount(s, patterns, matches) else 0
  {
    if patterns != [] {
      CopiesCount(s, patterns[..|patterns| - 1], matches, t);
      MatchCountSnoc(s, patterns, matches);
    }
  }

  /**
   * Good-pattern stage: a string occurs in the output once per good pattern it
   * matches for each time it occurs in the input; with no good patterns the
   * output is the input.
   */
  lemma {:induction false} SelectedCount(strings: seq<string>, good: seq<string>, matches: (string, string) -> bool, t: string)
    ensures multiset(Selected(strings, good, matches))[t] ==
      multiset(strings)[t] * (if good == [] then 1 else MatchCount(t, good, matches))
  {
    if good != [] && strings != [] {
      var init, last := strings[..|strings| - 1], strings[|strings| - 1];
      SelectedCount(init, good, matches, t);
      CopiesCount(last, good, matches, t);
      SelectingLastCount(strings, good, matches, t);
      Distribute(multiset(init)[t], if t == last then 1 else 0, MatchCount(t, good, matches));
    }
  }

  lemma SelectingLastCount(strings: seq<string>, good: seq<string>, matches: (string, string) -> bool, t: string)
    requires strings != []
    ensures var init, last := strings[..|strings| - 1], strings[|strings| - 1];
      && multiset(strings)[t] == multiset(init)[t] + (if t == last then 1 else 0)
      && multiset(Selecting(strings, good, matches))[t] ==
         multiset(Selecting(init, good, matches))[t] + multiset(Copies(last, good, matches))[t]
  {
    assert strings == strings[..|strings| - 1] + [strings[|strings| - 1]];
  }

  lemma Distribute(a: int, d: int, m: int)
    ensures a * m + d * m == (a + d) * m
  {
  }

  /** Good-pattern stage keeps input order: selecting from `a + b` is selecting from `a`, then from `b`. */
  lemma {:induction false} SelectingAppend(a: seq<string>, b: seq<string>, good: seq<string>, matches: (string, string) -> bool)
    ensures Selecting(a + b, good, matches) == Selecting(a, good, matches) + Selecting(b, good, matches)
    decreases |b|
  {
    if b == [] {
      assert a + b == a;
    } else {
      assert (a + b)[..|a + b| - 1] == a + b[..|b| - 1];
      SelectingAppend(a, b[..|b| - 1], good, matches);
    }
  }

  /** Bad-pattern stage keeps order: cleaning `a + b` is cleaning `a`, then `b`. */
  lemma {:induction false} CleanedAppend(a: seq<string>, b: seq<string>, bad: seq<string>, matches: (string, string) -> bool)
    ensures Cleaned(a + b, bad, matches) == Cleaned(a, bad, matches) + Cleaned(b, bad, matches)
    decreases |b|
  {
    if b == [] {
      assert a + b == a;
    } else {
      assert (a + b)[..|a + b| - 1] == a + b[..|b| - 1];
      CleanedAppend(a, b[..|b| - 1], bad, matches);
    }
  }

  /**
   * Bad-pattern stage: a string some bad pattern matches is gone, every other
   * string keeps all its occurrences.
   */
  lemma {:induction false} CleanedCount(strings: seq<string>, bad: seq<string>, matches: (string, string) -> bool, t: string)
    ensures multiset(Cleaned(strings, bad, matches))[t] == if MatchesAny(bad, t, matches) then 0 else multiset(strings)[t]
  {
    if strings != [] {
      var init := strings[..|strings| - 1];
      CleanedCount(init, bad, matches, t);
      assert strings == init + [strings[|strings| - 1]];
    }
  }

  /** Cleaning changes nothing exactly when no bad pattern matches any string. */
  lemma {:induction false} CleanedIsIdentity(strings: seq<string>, bad: seq<string>, matches: (string, string) -> bool)
    ensures Cleaned(strings, bad, matches) == strings <==> forall i :: 0 <= i < |strings| ==> !MatchesAny(bad, strings[i], matches)
  {
    if strings != [] {
      var init, last := strings[..|strings| - 1], strings[|strings| - 1];
      CleanedIsIdentity(init, bad, matches);
      CleanedShorter(init, bad, matches);
      if Cleaned(strings, bad, matches) == strings {
        assert Cleaned(init, bad, matches) == init && !MatchesAny(bad, last, matches);
      }
      if forall i :: 0 <= i < |strings| ==> !MatchesAny(bad, strings[i], matches) {
        assert forall i :: 0 <= i < |init| ==> init[i] == strings[i];
        assert strings == init + [last];
      }
    }
  }

  lemma {:induction false} CleanedShorter(strings: seq<string>, bad: seq<string>, matches: (string, string) -> bool)
    ensures |Cleaned(strings, bad, matches)| <= |strings|
  {
    if strings != [] {
      CleanedShorter(strings[..|strings| - 1], bad, matches);
    }
  }

  /**
   * The whole filter: a string occurs in the result as often as it occurs in
   * the input times the number of good patterns it matches (once with no good
   * patterns), and not at all when some bad pattern matches it.
   */
  lemma FilteredCount(strings: seq<string>, good: seq<string>, bad: Option<seq<string>>,
                      matches: (string, string) -> bool, t: string)
    ensures multiset(Filtered(strings, good, bad, matches))[t] ==
      if bad.Some? && MatchesAny(bad.value, t, matches) then 0
      else multiset(strings)[t] * (if good == [] then 1 else MatchCount(t, good, matches))
  {
    var kept := Selected(strings, good, matches);
    SelectedCount(strings, good, matches, t);
    if bad.Some? && bad.value != [] {
      CleanedCount(kept, bad.value, matches, t);
    }
  }
}
