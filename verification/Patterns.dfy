/**
 * Subscription patterns: internal/core/events/pattern.go and its double in host/hosttest/events.go.
 */
module Patterns {
  import opened Common

  const ONE := "*"
  const MANY := "**"

  // ---- Segments ------------------------------------------------------------------------------

  /** strings.Split(s, "."), which yields one empty segment for the empty string. */
  function Split(s: string): (segs: seq<string>)
    ensures |segs| >= 1
  {
    if s == "" then [""]
    else
      var rest := Split(s[1..]);
      if s[0] == '.' then [""] + rest else [[s[0]] + rest[0]] + rest[1..]
  }

  function Join(segs: seq<string>): string {
    if segs == [] then "" else if |segs| == 1 then segs[0] else segs[0] + "." + Join(segs[1..])
  }

  lemma JoinEmptyFirst(rest: seq<string>)
    requires rest != []
    ensures Join([""] + rest) == "." + Join(rest)
  {
    assert ([""] + rest)[1..] == rest;
    assert "" + "." == ".";
  }

  lemma JoinLonger(c: char, rest: seq<string>)
    requires rest != []
    ensures Join([[c] + rest[0]] + rest[1..]) == [c] + Join(rest)
  {
    var segs := [[c] + rest[0]] + rest[1..];
    assert segs[1..] == rest[1..];
    if |rest| > 1 { assert ([c] + rest[0]) + "." + Join(rest[1..]) == [c] + (rest[0] + "." + Join(rest[1..])); }
  }

  /** Splitting loses nothing. */
  lemma {:induction false} JoinSplit(s: string)
    ensures Join(Split(s)) == s
    decreases |s|
  {
    if s != "" {
      var rest := Split(s[1..]);
      JoinSplit(s[1..]);
      assert s == [s[0]] + s[1..];
      if s[0] == '.' { JoinEmptyFirst(rest); } else { JoinLonger(s[0], rest); }
    }
  }

  predicate Dotless(segs: seq<string>) { forall s <- segs :: '.' !in s }

  /** And it splits at every dot. */
  lemma {:induction false} SplitDotless(s: string)
    ensures Dotless(Split(s))
    decreases |s|
  {
    if s != "" {
      var rest := Split(s[1..]);
      SplitDotless(s[1..]);
      assert rest[0] in rest && forall x <- rest[1..] :: x in rest;
    }
  }

  /** Text before a dot, or all of it, is the first segment. */
  lemma {:induction false} SplitFirst(a: string, rest: string)
    requires '.' !in a
    ensures Split(a) == [a] && Split(a + "." + rest) == [a] + Split(rest)
    decreases |a|
  {
    if a == "" {
      assert (a + "." + rest)[0] == '.' && (a + "." + rest)[1..] == rest;
    } else {
      assert a[0] in a && forall c <- a[1..] :: c in a;
      SplitFirst(a[1..], rest);
      assert (a + "." + rest)[0] == a[0] && (a + "." + rest)[1..] == a[1..] + "." + rest;
      assert [a[0]] + a[1..] == a;
    }
  }

  /** So any segments without dots come back. */
  lemma {:induction false} SplitJoin(segs: seq<string>)
    requires segs != [] && Dotless(segs)
    ensures Split(Join(segs)) == segs
    decreases |segs|
  {
    assert segs[0] in segs && forall x <- segs[1..] :: x in segs;
    if |segs| == 1 {
      SplitFirst(segs[0], "");
      assert [segs[0]] == segs;
    } else {
      SplitJoin(segs[1..]);
      SplitFirst(segs[0], Join(segs[1..]));
      assert [segs[0]] + segs[1..] == segs;
    }
  }

  predicate Letter(c: char) { 'a' <= c <= 'z' }

  predicate ValidSegment(s: string) {
    && s != "" && Letter(s[0])
    && forall i :: 1 <= i < |s| ==> Letter(s[i]) || '0' <= s[i] <= '9' || s[i] == '_'
  }

  function CompilePattern(pattern: string): Option<seq<string>> {
    if pattern == "" then None
    else
      var segs := Split(pattern);
      if forall s <- segs :: s == ONE || s == MANY || ValidSegment(s) then Some(segs) else None
  }

  /** A letter, then letters, digits and underscores. */
  predicate SpelledSegment(s: string) {
    s != "" && s[0] in LETTERS && forall i :: 1 <= i < |s| ==> s[i] in LETTERS + DIGITS + "_"
  }

  lemma SegmentSpelled(s: string)
    ensures ValidSegment(s) <==> SpelledSegment(s)
  {
    if s != "" { Alphabet(s[0]); }
    forall i | 1 <= i < |s| ensures Letter(s[i]) || '0' <= s[i] <= '9' || s[i] == '_' <==> s[i] in LETTERS + DIGITS + "_" {
      Alphabet(s[i]);
    }
  }

  /** validSegment as it is written. */
  method CheckSegment(s: string) returns (ok: bool)
    ensures (ok <==> ValidSegment(s)) && (ok <==> SpelledSegment(s))
  {
    SegmentSpelled(s);
    if s == "" || s[0] < 'a' || s[0] > 'z' { return false; }
    for i := 1 to |s|
      invariant forall j :: 1 <= j < i ==> Letter(s[j]) || '0' <= s[j] <= '9' || s[j] == '_'
    {
      var c := s[i];
      if ('a' <= c <= 'z') || ('0' <= c <= '9') || c == '_' { continue; }
      return false;
    }
    return true;
  }

  /** CompilePattern with its loop: nonempty, and every segment a wildcard or valid. */
  method Compile(pattern: string) returns (r: Option<seq<string>>)
    ensures r == CompilePattern(pattern)
  {
    if pattern == "" { return None; }
    var segs := Split(pattern);
    for i := 0 to |segs|
      invariant forall s <- segs[..i] :: s == ONE || s == MANY || ValidSegment(s)
    {
      assert segs[..i + 1] == segs[..i] + [segs[i]] && segs[i] in segs;
      if segs[i] == ONE || segs[i] == MANY { continue; }
      var ok := CheckSegment(segs[i]);
      if !ok { return None; }
    }
    assert segs[..|segs|] == segs;
    return Some(segs);
  }

  /** A pattern written as dotted segments compiles to exactly those, when each is a wildcard or valid. */
  lemma CompilesTo(segs: seq<string>)
    requires segs != [] && forall s <- segs :: s == ONE || s == MANY || ValidSegment(s)
    ensures CompilePattern(Join(segs)) == Some(segs)
  {
    assert segs[0] in segs;
    forall s <- segs ensures '.' !in s && s != "" {
      if ValidSegment(s) { assert forall i :: 0 <= i < |s| ==> s[i] != '.'; }
    }
    SplitJoin(segs);
    assert Join(segs) != "";
  }

  // ---- The matcher ------------------------------------------------------------------------------

  function Matches(pat: seq<string>, typ: seq<string>): bool
    decreases |pat|
  {
    if pat == [] then typ == []
    else if pat[0] == MANY then pat[1..] == [] || exists i :: 0 <= i <= |typ| && Matches(pat[1..], typ[i..])
    else typ != [] && (pat[0] == ONE || typ[0] == pat[0]) && Matches(pat[1..], typ[1..])
  }

  /** matchSegments as it is written: a loop over the segments that recurses only at "**". */
  method MatchSegments(pat: seq<string>, typ: seq<string>) returns (r: bool)
    ensures r == Matches(pat, typ)
    decreases |pat|
  {
    var p, t := pat, typ;
    while |p| > 0
      invariant |p| <= |pat|
      invariant Matches(p, t) == Matches(pat, typ)
      decreases |p|
    {
      if p[0] == MANY {
        var rest := p[1..];
        if |rest| == 0 { return true; }
        for i := 0 to |t| + 1
          invariant forall j :: 0 <= j < i ==> !Matches(rest, t[j..])
        {
          var hit := MatchSegments(rest, t[i..]);
          if hit { return true; }
        }
        return false;
      } else if p[0] == ONE {
        if |t| == 0 { return false; }
        p, t := p[1..], t[1..];
      } else {
        if |t| == 0 || t[0] != p[0] { return false; }
        p, t := p[1..], t[1..];
      }
    }
    return |t| == 0;
  }

  // ---- What a match means -------------------------------------------------------------------------

  /** The run of type segments that one pattern segment may stand for. */
  predicate Fits(seg: string, run: seq<string>) {
    if seg == MANY then true else |run| == 1 && (seg == ONE || run[0] == seg)
  }

  function Flatten(runs: seq<seq<string>>): seq<string> {
    if runs == [] then [] else runs[0] + Flatten(runs[1..])
  }

  /** The runs assign segments to the pattern, in order, and together spell the type. */
  predicate Spells(pat: seq<string>, runs: seq<seq<string>>, typ: seq<string>) {
    |runs| == |pat| && (forall k :: 0 <= k < |pat| ==> Fits(pat[k], runs[k])) && Flatten(runs) == typ
  }

  lemma {:induction false} MatchSpells(pat: seq<string>, typ: seq<string>) returns (runs: seq<seq<string>>)
    requires Matches(pat, typ)
    ensures Spells(pat, runs, typ)
    decreases |pat|
  {
    if pat == [] { return []; }
    var i :=
      if pat[0] == MANY && pat[1..] == [] then |typ|
      else if pat[0] == MANY then var k :| 0 <= k <= |typ| && Matches(pat[1..], typ[k..]); k
      else 1;
    var rest := MatchSpells(pat[1..], typ[i..]);
    runs := [typ[..i]] + rest;
    assert runs[1..] == rest && typ == typ[..i] + typ[i..];
    forall k | 0 <= k < |pat| ensures Fits(pat[k], runs[k]) {
      if k > 0 { assert pat[k] == pat[1..][k - 1] && runs[k] == rest[k - 1]; }
    }
  }

  lemma {:induction false} SpellsMatch(pat: seq<string>, runs: seq<seq<string>>, typ: seq<string>)
    requires Spells(pat, runs, typ)
    ensures Matches(pat, typ)
    decreases |pat|
  {
    if pat == [] { return; }
    var i := |runs[0]|;
    assert typ[i..] == Flatten(runs[1..]) && typ[..i] == runs[0];
    assert Fits(pat[0], runs[0]);
    forall k | 0 <= k < |pat[1..]| ensures Fits(pat[1..][k], runs[1..][k]) { assert Fits(pat[k + 1], runs[k + 1]); }
    SpellsMatch(pat[1..], runs[1..], typ[i..]);
    if pat[0] != MANY { assert typ[0] == typ[..i][0]; }
  }

  /** A pattern matches exactly when zero or more segments can be assigned to each "**" to spell the type. */
  lemma MatchIffSpelled(pat: seq<string>, typ: seq<string>)
    ensures Matches(pat, typ) <==> exists runs :: Spells(pat, runs, typ)
  {
    if Matches(pat, typ) { var runs := MatchSpells(pat, typ); }
    if exists runs :: Spells(pat, runs, typ) {
      var runs :| Spells(pat, runs, typ);
      SpellsMatch(pat, runs, typ);
    }
  }

  /** A common head of the pattern does not see what follows it. */
  lemma {:induction false} Congruent(head: seq<string>, a: seq<string>, b: seq<string>, typ: seq<string>)
    requires a != [] && b != [] && forall t: seq<string> :: Matches(a, t) <==> Matches(b, t)
    ensures Matches(head + a, typ) <==> Matches(head + b, typ)
    decreases |head|
  {
    if head == [] {
      assert [] + a == a && [] + b == b;
      return;
    }
    var tail := head[1..];
    assert (head + a)[1..] == tail + a && (head + b)[1..] == tail + b;
    if head[0] == MANY {
      forall i | 0 <= i <= |typ| ensures Matches(tail + a, typ[i..]) <==> Matches(tail + b, typ[i..]) {
        Congruent(tail, a, b, typ[i..]);
      }
    } else if typ != [] {
      Congruent(tail, a, b, typ[1..]);
    }
  }

  predicate Somewhere(p: seq<string>, typ: seq<string>) { exists i :: 0 <= i <= |typ| && Matches(p, typ[i..]) }

  lemma ManyIs(p: seq<string>, typ: seq<string>)
    ensures Matches([MANY] + p, typ) <==> Somewhere(p, typ)
  {
    assert ([MANY] + p)[1..] == p;
    if p == [] { assert Matches(p, typ[|typ|..]); }
  }

  lemma OneIs(p: seq<string>, typ: seq<string>)
    ensures Matches([ONE] + p, typ) <==> typ != [] && Matches(p, typ[1..])
  {
    assert ([ONE] + p)[1..] == p;
  }

  lemma SwapAtFront(p: seq<string>, typ: seq<string>)
    ensures Matches([ONE] + ([MANY] + p), typ) <==> Matches([MANY] + ([ONE] + p), typ)
  {
    OneIs([MANY] + p, typ);
    ManyIs([ONE] + p, typ);
    if typ != [] { ManyIs(p, typ[1..]); }
    forall i | 0 <= i <= |typ| ensures Matches([ONE] + p, typ[i..]) <==> i < |typ| && Matches(p, typ[1..][i..]) {
      OneIs(p, typ[i..]);
      if i < |typ| { assert typ[i..][1..] == typ[1..][i..]; }
    }
  }

  /** Anywhere in a pattern, swapping an adjacent "*" and "**" changes nothing. */
  lemma SwapWildcards(head: seq<string>, p: seq<string>, typ: seq<string>)
    ensures Matches(head + ([ONE, MANY] + p), typ) <==> Matches(head + ([MANY, ONE] + p), typ)
  {
    assert [ONE, MANY] + p == [ONE] + ([MANY] + p) && [MANY, ONE] + p == [MANY] + ([ONE] + p);
    forall t: seq<string> ensures Matches([ONE, MANY] + p, t) <==> Matches([MANY, ONE] + p, t) { SwapAtFront(p, t); }
    Congruent(head, [ONE, MANY] + p, [MANY, ONE] + p, typ);
  }

  lemma ManyManyAtFront(p: seq<string>, typ: seq<string>)
    ensures Matches([MANY] + ([MANY] + p), typ) <==> Matches([MANY] + p, typ)
  {
    ManyIs([MANY] + p, typ);
    ManyIs(p, typ);
    forall i | 0 <= i <= |typ| ensures Matches([MANY] + p, typ[i..]) <==> exists j :: i <= j <= |typ| && Matches(p, typ[j..]) {
      ManyIs(p, typ[i..]);
      assert forall j :: i <= j <= |typ| ==> typ[i..][j - i..] == typ[j..];
      if Somewhere(p, typ[i..]) {
        var k :| 0 <= k <= |typ[i..]| && Matches(p, typ[i..][k..]);
        assert typ[i..][k..] == typ[i + k..];
      }
    }
  }

  /** And a doubled "**" is the same as one. */
  lemma CollapseMany(head: seq<string>, p: seq<string>, typ: seq<string>)
    ensures Matches(head + ([MANY, MANY] + p), typ) <==> Matches(head + ([MANY] + p), typ)
  {
    assert [MANY, MANY] + p == [MANY] + ([MANY] + p);
    forall t: seq<string> ensures Matches([MANY, MANY] + p, t) <==> Matches([MANY] + p, t) { ManyManyAtFront(p, t); }
    Congruent(head, [MANY, MANY] + p, [MANY] + p, typ);
  }

  // ---- The two matchers -------------------------------------------------------------------------------

  predicate CoreMatches(segs: seq<string>, eventType: string) { Matches(segs, Split(eventType)) }

  /** Cut at their dots, some assignment of segments to the pattern's wildcards spells the type. */
  ghost predicate Spellable(pattern: string, eventType: string) {
    exists pat, typ, runs ::
      && pat != [] && typ != [] && Dotless(pat) && Dotless(typ) && pattern == Join(pat) && eventType == Join(typ)
      && Spells(pat, runs, typ)
  }

  lemma SpellableIff(pattern: string, eventType: string)
    ensures Matches(Split(pattern), Split(eventType)) <==> Spellable(pattern, eventType)
  {
    var pat, typ := Split(pattern), Split(eventType);
    JoinSplit(pattern);
    JoinSplit(eventType);
    SplitDotless(pattern);
    SplitDotless(eventType);
    MatchIffSpelled(pat, typ);
    forall p, t, runs | p != [] && t != [] && Dotless(p) && Dotless(t) && pattern == Join(p) && eventType == Join(t) && Spells(p, runs, t)
      ensures p == pat && t == typ
    {
      SplitJoin(p);
      SplitJoin(t);
    }
    if runs :| Spells(pat, runs, typ) { assert Spellable(pattern, eventType); }
  }

  /** The test double's Match, which takes a raw pattern and lets the empty one match everything. */
  method HostMatch(pattern: string, eventType: string) returns (r: bool)
    ensures pattern == "" ==> r && CompilePattern(pattern).None?
    ensures CompilePattern(pattern).Some? ==> r == CoreMatches(CompilePattern(pattern).value, eventType)
    ensures pattern != "" ==> (r <==> Spellable(pattern, eventType))
  {
    if pattern == "" { return true; }
    SpellableIff(pattern, eventType);
    r := MatchSegments(Split(pattern), Split(eventType));
  }

  /** On whole strings: dotted patterns match dotted types exactly when some assignment of segments spells the type. */
  lemma MatchOnStrings(pat: seq<string>, typ: seq<string>)
    requires pat != [] && typ != [] && Dotless(pat) && Dotless(typ)
    ensures CoreMatches(Split(Join(pat)), Join(typ)) <==> exists runs :: Spells(pat, runs, typ)
    ensures CompilePattern(Join(pat)).Some? ==> CompilePattern(Join(pat)).value == pat
  {
    SplitJoin(pat);
    SplitJoin(typ);
    MatchIffSpelled(pat, typ);
  }

  // ---- The SQL prefix -----------------------------------------------------------------------------------

  predicate Wild(s: string) { s == ONE || s == MANY }

  function Literals(segs: seq<string>): seq<string> {
    if segs == [] || Wild(segs[0]) then [] else [segs[0]] + Literals(segs[1..])
  }

  lemma {:induction false} JoinMore(segs: seq<string>, s: string)
    requires segs != []
    ensures Join(segs + [s]) == Join(segs) + "." + s
    decreases |segs|
  {
    assert (segs + [s])[1..] == segs[1..] + [s];
    if |segs| > 1 { JoinMore(segs[1..], s); }
  }

  lemma {:induction false} LiteralsPrefix(segs: seq<string>)
    ensures |Literals(segs)| <= |segs| && Literals(segs) == segs[..|Literals(segs)|]
    ensures |Literals(segs)| < |segs| ==> Wild(segs[|Literals(segs)|])
    ensures forall i :: 0 <= i < |Literals(segs)| ==> !Wild(segs[i])
    decreases |segs|
  {
    if segs != [] && !Wild(segs[0]) {
      LiteralsPrefix(segs[1..]);
      assert segs == [segs[0]] + segs[1..];
    }
  }

  /** sqlPrefix as it is written: a builder that stops at the first wildcard. */
  method SqlPrefix(segs: seq<string>) returns (b: string)
    requires forall s <- segs :: Wild(s) || s != ""
    ensures b == Join(Literals(segs))
    ensures exists n | 0 <= n <= |segs| ::
      b == Join(segs[..n]) && (forall i :: 0 <= i < n ==> segs[i] != "*" && segs[i] != "**")
      && (n < |segs| ==> segs[n] == "*" || segs[n] == "**")
  {
    b := "";
    LiteralsPrefix(segs);
    ghost var n := |Literals(segs)|;
    for i := 0 to |segs|
      invariant i <= n && b == Join(segs[..i]) && (i > 0 ==> b != "")
    {
      if Wild(segs[i]) { break; }
      assert segs[i] in segs && segs[..i + 1] == segs[..i] + [segs[i]];
      if |b| > 0 {
        JoinMore(segs[..i], segs[i]);
        b := b + ".";
      } else {
        assert segs[..i] == [];
      }
      b := b + segs[i];
    }
  }

  lemma {:induction false} LiteralsMatch(segs: seq<string>, typ: seq<string>)
    requires Matches(segs, typ)
    ensures Literals(segs) <= typ
    decreases |segs|
  {
    if segs != [] && !Wild(segs[0]) {
      LiteralsMatch(segs[1..], typ[1..]);
      assert typ == [typ[0]] + typ[1..];
    }
  }

  lemma {:induction false} JoinPrefix(a: seq<string>, all: seq<string>)
    requires a != [] && a <= all
    ensures Join(a) == Join(all) || Join(a) + "." <= Join(all)
    decreases |a|
  {
    if |all| > 1 {
      assert Join(all) == all[0] + "." + Join(all[1..]);
      if |a| > 1 {
        assert a[1..] <= all[1..];
        JoinPrefix(a[1..], all[1..]);
        assert Join(a) == all[0] + "." + Join(a[1..]);
        if Join(a[1..]) + "." <= Join(all[1..]) {
          assert Join(a) + "." == (all[0] + ".") + (Join(a[1..]) + ".");
        }
      }
    }
  }

  /** The database may skip every row outside the prefix: a matching type is the prefix or goes on with a dot. */
  lemma PrefixIsNecessary(pattern: string, eventType: string)
    requires CompilePattern(pattern).Some? && CoreMatches(CompilePattern(pattern).value, eventType)
    ensures var prefix := Join(Literals(CompilePattern(pattern).value));
      prefix == "" || eventType == prefix || prefix + "." <= eventType
  {
    var segs := CompilePattern(pattern).value;
    LiteralsMatch(segs, Split(eventType));
    JoinSplit(eventType);
    if Literals(segs) != [] { JoinPrefix(Literals(segs), Split(eventType)); }
  }
}
