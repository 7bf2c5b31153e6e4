/** The glob matcher and the secret filter of sync/engine.go, against the textbook meaning of a glob. */
module Glob {
  import opened Prelude

  /** The meaning of a pattern: `*` stands for any string, every other character for itself. */
  ghost predicate Matches(p: string, n: string) {
    if p == "" then n == ""
    else if p[0] == '*' then exists k | 0 <= k <= |n| :: Matches(p[1..], n[k..])
    else n != "" && n[0] == p[0] && Matches(p[1..], n[1..])
  }

  predicate MatchPattern(pattern: string, name: string) {
    if pattern == "*" then true
    else if pattern == name then true
    else if |pattern| > 0 && pattern[0] == '*' && |name| >= |pattern| - 1 then
      name[|name| - (|pattern| - 1)..] == pattern[1..]
    else if |pattern| > 0 && pattern[|pattern| - 1] == '*' then
      |name| >= |pattern| - 1 && name[..|pattern| - 1] == pattern[..|pattern| - 1]
    else false
  }

  function Stars(p: string): nat {
    if p == "" then 0 else (if p[0] == '*' then 1 else 0) + Stars(p[1..])
  }

  /** No star at all, or a single one, at the beginning or the end. */
  predicate Simple(p: string) {
    Stars(p) == 0 || (Stars(p) == 1 && (p[0] == '*' || p[|p| - 1] == '*'))
  }

  /** Every pattern matches itself read as a name. */
  lemma {:induction false} MatchesItself(p: string)
    ensures Matches(p, p)
  {
    if p != "" {
      MatchesItself(p[1..]);
      if p[0] == '*' {
        assert Matches(p[1..], p[1..]);
      }
    }
  }

  /** A prefix that matches itself can be matched off before a pattern's final star. */
  lemma {:induction false} MatchesPrefix(p: string, rest: string)
    ensures Matches(p + "*", p + rest)
  {
    if p == "" {
      var n := p + rest;
      assert (p + "*")[1..] == "" && n[|n|..] == "";
      assert Matches("", n[|n|..]);
    } else {
      assert (p + "*")[1..] == p[1..] + "*";
      assert (p + rest)[1..] == p[1..] + rest;
      MatchesPrefix(p[1..], rest);
    }
  }

  /** What the code accepts is a match. */
  lemma MatchPatternSound(p: string, n: string)
    requires MatchPattern(p, n)
    ensures Matches(p, n)
  {
    if p == "*" {
      assert p[1..] == "" && n[|n|..] == "";
      assert Matches(p[1..], n[|n|..]);
    } else if p == n {
      MatchesItself(p);
    } else if |p| > 0 && p[0] == '*' && |n| >= |p| - 1 {
      MatchesItself(p[1..]);
      assert Matches(p[1..], n[|n| - (|p| - 1)..]);
    } else {
      var q := p[..|p| - 1];
      assert p == q + "*" && n == q + n[|q|..];
      MatchesPrefix(q, n[|q|..]);
    }
  }

  /** A pattern without stars matches only itself. */
  lemma {:induction false} PlainMatch(p: string, n: string)
    requires Stars(p) == 0
    ensures Matches(p, n) <==> p == n
  {
    if p != "" && n != "" && p[0] == n[0] {
      PlainMatch(p[1..], n[1..]);
      assert p == [p[0]] + p[1..] && n == [n[0]] + n[1..];
    }
  }

  lemma {:induction false} StarsAppend(p: string, q: string)
    ensures Stars(p + q) == Stars(p) + Stars(q)
  {
    if p == "" {
      assert p + q == q;
    } else {
      assert (p + q)[1..] == p[1..] + q;
      StarsAppend(p[1..], q);
    }
  }

  lemma {:induction false} FinalStarMatch(q: string, n: string)
    requires Stars(q) == 0 && Matches(q + "*", n)
    ensures q <= n
  {
    if q != "" {
      assert (q + "*")[1..] == q[1..] + "*";
      FinalStarMatch(q[1..], n[1..]);
      assert q == [q[0]] + q[1..] && n == [n[0]] + n[1..];
    }
  }

  lemma {:induction false} StarsZero(p: string)
    ensures Stars(p) == 0 <==> '*' !in p
    ensures Stars(p) <= |p|
  {
    if p != "" {
      StarsZero(p[1..]);
    }
  }

  /** On simple patterns the code misses no match. */
  lemma SimpleComplete(p: string, n: string)
    requires Simple(p) && Matches(p, n)
    ensures MatchPattern(p, n)
  {
    StarsZero(p);
    if Stars(p) == 0 {
      PlainMatch(p, n);
    } else if p[0] == '*' {
      var k :| 0 <= k <= |n| && Matches(p[1..], n[k..]);
      PlainMatch(p[1..], n[k..]);
    } else {
      var q := p[..|p| - 1];
      assert p == q + "*";
      StarsAppend(q, "*");
      FinalStarMatch(q, n);
    }
  }

  /** The name that shows a pattern incomplete: the pattern with every star taken as the empty string. */
  function Starless(p: string): (n: string)
    ensures |n| + Stars(p) == |p|
  {
    if p == "" then "" else if p[0] == '*' then Starless(p[1..]) else [p[0]] + Starless(p[1..])
  }

  lemma {:induction false} StarlessMatches(p: string)
    ensures Matches(p, Starless(p))
  {
    if p != "" {
      StarlessMatches(p[1..]);
      if p[0] == '*' {
        assert Starless(p)[0..] == Starless(p);
        assert Matches(p[1..], Starless(p)[0..]);
      }
    }
  }

  /** The code decides the glob for every name exactly when the pattern is simple. */
  lemma ExactIffSimple(p: string)
    ensures (forall n :: MatchPattern(p, n) <==> Matches(p, n)) <==> Simple(p)
  {
    if Simple(p) {
      forall n ensures MatchPattern(p, n) <==> Matches(p, n) {
        if MatchPattern(p, n) {
          MatchPatternSound(p, n);
        } else if Matches(p, n) {
          SimpleComplete(p, n);
        }
      }
    } else {
      StarlessMatches(p);
      StarsZero(p);
      assert Stars("*") == 1;
      assert !MatchPattern(p, Starless(p));
    }
  }

  // ---------------------------------------------------------------- the filter

  datatype Filter = Filter(patterns: seq<string>, exclude: seq<string>)

  predicate MatchesAny(patterns: seq<string>, name: string) {
    exists i | 0 <= i < |patterns| :: MatchPattern(patterns[i], name)
  }

  predicate Keeps(f: Filter, name: string) {
    !MatchesAny(f.exclude, name) && (f.patterns == [] || MatchesAny(f.patterns, name))
  }

  /** The kept names, in order, each as often as it was listed. */
  function Filtered(secrets: seq<string>, f: Filter): seq<string> {
    if secrets == [] then []
    else
      var k := |secrets| - 1;
      Filtered(secrets[..k], f) + (if Keeps(f, secrets[k]) then [secrets[k]] else [])
  }

  method MatchAny(patterns: seq<string>, name: string) returns (found: bool)
    ensures found <==> MatchesAny(patterns, name)
  {
    for i := 0 to |patterns|
      invariant forall k | 0 <= k < i :: !MatchPattern(patterns[k], name)
    {
      if MatchPattern(patterns[i], name) {
        return true;
      }
    }
    found := false;
  }

  method FilterSecrets(secrets: seq<string>, f: Filter) returns (filtered: seq<string>)
    ensures filtered == Filtered(secrets, f)
    ensures forall n :: n in filtered <==>
              && n in secrets && (forall p | p in f.exclude :: !MatchPattern(p, n))
              && (f.patterns == [] || exists p | p in f.patterns :: MatchPattern(p, n))
  {
    forall n ensures n in Filtered(secrets, f) <==> n in secrets && Passes(f, n) { FilteredMembers(secrets, f, n); }
    if |f.patterns| == 0 && |f.exclude| == 0 {
      NoFilter(secrets, f);
      return secrets;
    }
    filtered := [];
    for i := 0 to |secrets|
      invariant filtered == Filtered(secrets[..i], f)
    {
      assert secrets[..i + 1][..i] == secrets[..i];
      var excluded := MatchAny(f.exclude, secrets[i]);
      if excluded {
        continue;
      }
      if |f.patterns| > 0 {
        var matched := MatchAny(f.patterns, secrets[i]);
        if !matched {
          continue;
        }
      }
      filtered := filtered + [secrets[i]];
    }
    assert secrets[..|secrets|] == secrets;
  }

  /** No exclude pattern accepts the name, and some include pattern does when there are any. */
  ghost predicate Passes(f: Filter, name: string) {
    && (forall p | p in f.exclude :: !MatchPattern(p, name))
    && (f.patterns == [] || exists p | p in f.patterns :: MatchPattern(p, name))
  }

  lemma PassesIsKeeps(f: Filter, name: string)
    ensures Passes(f, name) <==> Keeps(f, name)
  {
    forall ps: seq<string> ensures MatchesAny(ps, name) <==> exists p | p in ps :: MatchPattern(p, name) {
      if p :| p in ps && MatchPattern(p, name) {
        var i :| 0 <= i < |ps| && ps[i] == p;
      }
    }
  }

  lemma {:induction false} FilteredMembers(secrets: seq<string>, f: Filter, n: string)
    ensures n in Filtered(secrets, f) <==> n in secrets && Passes(f, n)
  {
    if secrets != [] {
      var front, last := secrets[..|secrets| - 1], secrets[|secrets| - 1];
      FilteredMembers(front, f, n);
      PassesIsKeeps(f, last);
      assert secrets == front + [last];
    }
  }

  /** With simple patterns the kept names are those the globs say. */
  lemma SimpleFilter(secrets: seq<string>, f: Filter, n: string)
    requires forall p | p in f.patterns + f.exclude :: Simple(p)
    ensures n in Filtered(secrets, f) <==>
              && n in secrets && (forall p | p in f.exclude :: !Matches(p, n))
              && (f.patterns == [] || exists p | p in f.patterns :: Matches(p, n))
  {
    FilteredMembers(secrets, f, n);
    forall p | p in f.patterns + f.exclude ensures MatchPattern(p, n) <==> Matches(p, n) {
      if MatchPattern(p, n) { MatchPatternSound(p, n); }
      if Matches(p, n) { SimpleComplete(p, n); }
    }
    assert forall p | p in f.exclude :: p in f.patterns + f.exclude;
    assert forall p | p in f.patterns :: p in f.patterns + f.exclude;
  }

  /** How many of the listed names pass. */
  ghost function Passing(secrets: seq<string>, f: Filter): nat {
    if secrets == [] then 0
    else Passing(secrets[..|secrets| - 1], f) + (if Passes(f, secrets[|secrets| - 1]) then 1 else 0)
  }

  lemma {:induction false} FilteredCount(secrets: seq<string>, f: Filter)
    ensures |Filtered(secrets, f)| == Passing(secrets, f)
  {
    if secrets != [] {
      FilteredCount(secrets[..|secrets| - 1], f);
      PassesIsKeeps(f, secrets[|secrets| - 1]);
    }
  }

  lemma {:induction false} NoFilter(secrets: seq<string>, f: Filter)
    requires f.patterns == [] && f.exclude == []
    ensures Filtered(secrets, f) == secrets
  {
    if secrets != [] {
      NoFilter(secrets[..|secrets| - 1], f);
    }
  }

  /** Order and multiplicity: a kept name occurs as often as in the input, a dropped one not at all, and
      filtering distributes over concatenation. */
  lemma {:induction false} FilterKeepsMultiplicity(secrets: seq<string>, f: Filter, n: string)
    ensures multiset(Filtered(secrets, f))[n] == if Keeps(f, n) then multiset(secrets)[n] else 0
  {
    if secrets != [] {
      var k := |secrets| - 1;
      FilterKeepsMultiplicity(secrets[..k], f, n);
      assert secrets == secrets[..k] + [secrets[k]];
    }
  }

  lemma {:induction false} FilterAppend(a: seq<string>, b: seq<string>, f: Filter)
    ensures Filtered(a + b, f) == Filtered(a, f) + Filtered(b, f)
  {
    if b == [] {
      assert a + b == a;
    } else {
      assert (a + b)[..|a + b| - 1] == a + b[..|b| - 1];
      FilterAppend(a, b[..|b| - 1], f);
    }
  }

  lemma {:induction false} FilterDistinct(secrets: seq<string>, f: Filter)
    requires Distinct(secrets)
    ensures Distinct(Filtered(secrets, f))
    ensures forall n :: n in Filtered(secrets, f) <==> n in secrets && Keeps(f, n)
  {
    if secrets != [] {
      FilterDistinct(secrets[..|secrets| - 1], f);
    }
  }

  lemma MatchesAnyAppend(e1: seq<string>, e2: seq<string>, n: string)
    ensures MatchesAny(e1 + e2, n) <==> MatchesAny(e1, n) || MatchesAny(e2, n)
  {
    if i :| 0 <= i < |e1| && MatchPattern(e1[i], n) {
      assert MatchPattern((e1 + e2)[i], n);
    } else if i :| 0 <= i < |e2| && MatchPattern(e2[i], n) {
      assert MatchPattern((e1 + e2)[|e1| + i], n);
    }
  }

  /** Excluding two lists at once is excluding one and then, alone, the other. */
  lemma {:induction false} ExcludeComposes(secrets: seq<string>, patterns: seq<string>,
                                           e1: seq<string>, e2: seq<string>)
    ensures Filtered(secrets, Filter(patterns, e1 + e2)) ==
            Filtered(Filtered(secrets, Filter(patterns, e1)), Filter([], e2))
  {
    if secrets != [] {
      var k := |secrets| - 1;
      ExcludeComposes(secrets[..k], patterns, e1, e2);
      MatchesAnyAppend(e1, e2, secrets[k]);
      var kept := if Keeps(Filter(patterns, e1), secrets[k]) then [secrets[k]] else [];
      FilterAppend(Filtered(secrets[..k], Filter(patterns, e1)), kept, Filter([], e2));
    }
  }
}
