/**
 Per-topic authorization by glob patterns (authz/authz.go): the `{userKey}`
 substitution, its escaping, and matching with path.Match over topic segments.

 path.Match is a library function; it is modelled by its documented grammar. Text
 is a sequence of characters, so invalid UTF-8 does not occur.
 */
module TopicGlobs {
  import opened Basics

  // ---- path.Match ----

  type Range = (char, char)

  datatype Token = Lit(c: char) | AnyChar | Star | Class(negated: bool, ranges: seq<Range>)

  // One possibly escaped character inside a class; something must follow it.
  function GetEsc(s: string): Option<(char, string)> {
    if s == [] || s[0] == '-' || s[0] == ']' then None
    else if s[0] == '\\' then (if |s| < 3 then None else Some((s[1], s[2..])))
    else if |s| < 2 then None
    else Some((s[0], s[1..]))
  }

  // One entry of a class: a character or a range, and what is left.
  function ParseEntry(s: string): (r: Option<(Range, string)>)
    ensures r.Some? ==> |r.value.1| < |s|
  {
    var lo := GetEsc(s);
    if lo.None? then None
    else if lo.value.1[0] != '-' then Some(((lo.value.0, lo.value.0), lo.value.1))
    else
      var hi := GetEsc(lo.value.1[1..]);
      if hi.None? then None else Some(((lo.value.0, hi.value.0), hi.value.1))
  }

  // The ranges of a class up to its closing bracket, and what is left.
  function ParseRanges(s: string, acc: seq<Range>): (r: Option<(seq<Range>, string)>)
    ensures r.Some? ==> |r.value.1| < |s|
    decreases |s|
  {
    if s != [] && s[0] == ']' && acc != [] then Some((acc, s[1..]))
    else
      var entry := ParseEntry(s);
      if entry.None? then None else ParseRanges(entry.value.1, acc + [entry.value.0])
  }

  // A class without its opening bracket.
  function ParseClass(s: string): (r: Option<(Token, string)>)
    ensures r.Some? ==> |r.value.1| < |s|
  {
    var negated := s != [] && s[0] == '^';
    var ranges := ParseRanges(if negated then s[1..] else s, []);
    if ranges.None? then None else Some((Class(negated, ranges.value.0), ranges.value.1))
  }

  function Cons<T>(x: T, rest: Option<seq<T>>): Option<seq<T>> {
    if rest.None? then None else Some([x] + rest.value)
  }

  function NextToken(p: string): (r: Option<(Token, string)>)
    requires p != []
    ensures r.Some? ==> |r.value.1| < |p|
  {
    if p[0] == '*' then Some((Star, p[1..]))
    else if p[0] == '?' then Some((AnyChar, p[1..]))
    else if p[0] == '\\' then (if |p| < 2 then None else Some((Lit(p[1]), p[2..])))
    else if p[0] == '[' then ParseClass(p[1..])
    else Some((Lit(p[0]), p[1..]))
  }

  // None is path.ErrBadPattern.
  function Tokenize(p: string): Option<seq<Token>>
    decreases |p|
  {
    if p == [] then Some([])
    else
      var next := NextToken(p);
      if next.None? then None else Cons(next.value.0, Tokenize(next.value.1))
  }

  predicate Accepts(t: Token, c: char) {
    match t
    case Lit(l) => c == l
    case AnyChar => c != '/'
    case Star => false
    case Class(negated, ranges) =>
      negated != exists i :: 0 <= i < |ranges| && ranges[i].0 <= c <= ranges[i].1
  }

  predicate Matches(tokens: seq<Token>, s: string)
    decreases |tokens| + |s|
  {
    if tokens == [] then s == []
    else if tokens[0] == Star then
      Matches(tokens[1..], s) || (s != [] && s[0] != '/' && Matches(tokens, s[1..]))
    else s != [] && Accepts(tokens[0], s[0]) && Matches(tokens[1..], s[1..])
  }

  // path.Match, with its error read as no match, as matchTopic reads it.
  predicate PathMatch(pattern: string, name: string) {
    Tokenize(pattern).Some? && Matches(Tokenize(pattern).value, name)
  }

  // ---- matchTopic, expand, escapeGlob ----

  function Dot(c: char): char {
    if c == '.' then '/' else c
  }

  // strings.ReplaceAll(s, ".", "/").
  function Dots(s: string): string {
    seq(|s|, i requires 0 <= i < |s| => Dot(s[i]))
  }

  predicate MatchTopic(pattern: string, topic: string) {
    pattern == "*" || PathMatch(Dots(pattern), Dots(topic))
  }

  predicate IsMeta(c: char) {
    c == '*' || c == '?' || c == '[' || c == ']' || c == '\\'
  }

  function EscapeChar(c: char): string {
    if IsMeta(c) then ['\\', c] else [c]
  }

  function Escaped(s: string): string {
    if s == [] then [] else EscapeChar(s[0]) + Escaped(s[1..])
  }

  method EscapeGlob(s: string) returns (b: string)
    ensures b == Escaped(s)
  {
    b := "";
    for i := 0 to |s|
      invariant b + Escaped(s[i..]) == Escaped(s)
    {
      ghost var before := b;
      EscapedFrom(s, i);
      if IsMeta(s[i]) {
        b := b + ['\\'];
      }
      b := b + [s[i]];
      assert b == before + EscapeChar(s[i]);
      Assoc(before, EscapeChar(s[i]), Escaped(s[i + 1..]));
    }
    assert b + [] == b;
  }

  lemma EscapedFrom(s: string, i: nat)
    requires i < |s|
    ensures Escaped(s[i..]) == EscapeChar(s[i]) + Escaped(s[i + 1..])
  {
    assert s[i..][1..] == s[i + 1..];
  }

  const HOLE := "{userKey}"

  predicate HoleAt(p: string) {
    HOLE <= p
  }

  // strings.ReplaceAll(pattern, "{userKey}", escapeGlob(userKey)).
  function Expand(p: string, userKey: string): string {
    if p == [] then []
    else if HoleAt(p) then Escaped(userKey) + Expand(p[|HOLE|..], userKey)
    else [p[0]] + Expand(p[1..], userKey)
  }

  // ---- Authorize ----

  datatype Action = ActionSubscribe | ActionPublish | ActionLock

  predicate Grants(pattern: string, userKey: string, topic: string) {
    MatchTopic(Expand(pattern, userKey), topic)
  }

  method Authorize(rules: map<Action, seq<string>>, userKey: string, action: Action, topic: string) returns (allowed: bool)
    ensures allowed <==>
            action in rules && exists i :: 0 <= i < |rules[action]| && Grants(rules[action][i], userKey, topic)
  {
    var patterns := if action in rules then rules[action] else [];
    for i := 0 to |patterns|
      invariant forall k :: 0 <= k < i ==> !Grants(patterns[k], userKey, topic)
    {
      var granted := Grants(patterns[i], userKey, topic);
      if granted {
        return true;
      }
    }
    return false;
  }

  // ---- What a pattern with placeholders means ----

  // The text around the placeholders.
  function Parts(p: string): (r: seq<string>)
    ensures r != []
  {
    if p == [] then [[]]
    else if HoleAt(p) then [[]] + Parts(p[|HOLE|..])
    else
      var rest := Parts(p[1..]);
      [[p[0]] + rest[0]] + rest[1..]
  }

  // The name is a match of the first part, the key itself, a match of the next
  // part, and so on.
  ghost predicate Means(parts: seq<string>, key: string, name: string)
    requires parts != []
    decreases |parts|, 1
  {
    if |parts| == 1 then PathMatch(parts[0], name)
    else exists i :: 0 <= i <= |name| && MeansAt(parts, key, name, i)
  }

  ghost predicate MeansAt(parts: seq<string>, key: string, name: string, i: nat)
    requires |parts| > 1 && i <= |name|
    decreases |parts|, 0
  {
    PathMatch(parts[0], name[..i]) && key <= name[i..] && Means(parts[1..], key, name[i + |key|..])
  }

  // No placeholder follows an unpaired backslash or sits in a character class:
  // the text before each one is a pattern of its own.
  predicate HolesStandAlone(parts: seq<string>) {
    forall i :: 0 <= i < |parts| - 1 ==> Tokenize(parts[i]).Some?
  }

  function Lits(s: string): seq<Token> {
    seq(|s|, i requires 0 <= i < |s| => Lit(s[i]))
  }

  function Join(parts: seq<string>, filler: string): string
    requires parts != []
  {
    if |parts| == 1 then parts[0] else parts[0] + filler + Join(parts[1..], filler)
  }

  // ---- Reading a pattern piece by piece ----

  // Tokens before whatever the rest of a pattern reads as.
  function Prepend(tokens: seq<Token>, rest: Option<seq<Token>>): Option<seq<Token>> {
    if rest.None? then None else Some(tokens + rest.value)
  }

  // An escaped character reads as itself, whatever it is and whatever follows it.
  lemma TokenizeEscapedChar(c: char, tail: string)
    ensures Tokenize(EscapeChar(c) + tail) == Cons(Lit(c), Tokenize(tail))
  {
    if IsMeta(c) {
      assert (EscapeChar(c) + tail)[2..] == tail;
    } else {
      assert (EscapeChar(c) + tail)[1..] == tail;
    }
  }

  lemma {:induction false} TokenizeEscaped(key: string, rest: string)
    ensures Tokenize(Escaped(key) + rest) == Prepend(Lits(key), Tokenize(rest))
  {
    if key == [] {
      assert Escaped(key) + rest == rest;
      PrependNothing(Tokenize(rest));
    } else {
      var tail := Escaped(key[1..]) + rest;
      TokenizeEscaped(key[1..], rest);
      TokenizeEscapedChar(key[0], tail);
      Assoc(EscapeChar(key[0]), Escaped(key[1..]), rest);
      PrependCons(Lit(key[0]), Lits(key[1..]), Tokenize(rest));
      assert [Lit(key[0])] + Lits(key[1..]) == Lits(key);
    }
  }

  lemma Assoc<T>(a: seq<T>, b: seq<T>, c: seq<T>)
    ensures a + b + c == a + (b + c)
  {
  }

  lemma PrependNothing(rest: Option<seq<Token>>)
    ensures Prepend([], rest) == rest
  {
    assert rest.Some? ==> [] + rest.value == rest.value;
  }

  lemma PrependCons(t: Token, tokens: seq<Token>, rest: Option<seq<Token>>)
    ensures Cons(t, Prepend(tokens, rest)) == Prepend([t] + tokens, rest)
  {
    if rest.Some? {
      Assoc([t], tokens, rest.value);
    }
  }

  // Reading a class looks no further than its closing bracket: the text after it
  // can be replaced. An entry of the class looks one character further.
  lemma GetEscIsLocal(s: string, other: string)
    requires GetEsc(s).Some? && other != []
    ensures var (c, rest) := GetEsc(s).value;
            rest != [] && rest == s[|s| - |rest|..] && GetEsc(s[..|s| - |rest|] + other) == Some((c, other))
  {
    var k := |s| - |GetEsc(s).value.1|;
    assert (s[..k] + other)[k..] == other;
  }

  lemma EntryIsLocal(s: string, other: string)
    requires ParseEntry(s).Some?
    requires other != [] && ParseEntry(s).value.1 != [] && other[0] == ParseEntry(s).value.1[0]
    ensures var (entry, rest) := ParseEntry(s).value;
            rest == s[|s| - |rest|..] && ParseEntry(s[..|s| - |rest|] + other) == Some((entry, other))
  {
    var (entry, rest) := ParseEntry(s).value;
    var (lo, s1) := GetEsc(s).value;
    var k := |s| - |s1|;
    if s1[0] != '-' {
      GetEscIsLocal(s, other);
    } else {
      var s2 := s1[1..];
      GetEscIsLocal(s2, other);
      var other2 := s2[..|s2| - |rest|] + other;
      GetEscIsLocal(s, ['-'] + other2);
      assert s[..|s| - |rest|] + other == s[..k] + (['-'] + other2);
      assert (['-'] + other2)[1..] == other2;
    }
  }

  lemma {:induction false} RangesAreLocal(s: string, acc: seq<Range>, other: string)
    requires ParseRanges(s, acc).Some?
    ensures var (ranges, rest) := ParseRanges(s, acc).value;
            rest == s[|s| - |rest|..] && ParseRanges(s[..|s| - |rest|] + other, acc) == Some((ranges, other))
    decreases |s|
  {
    var (ranges, rest) := ParseRanges(s, acc).value;
    var used := s[..|s| - |rest|];
    if s[0] == ']' && acc != [] {
      assert used == [']'] && (used + other)[1..] == other;
    } else {
      var (entry, s1) := ParseEntry(s).value;
      RangesStep(s, acc, entry, s1);
      RangesAreLocal(s1, acc + [entry], other);
      var other1 := s1[..|s1| - |rest|] + other;
      EntryIsLocal(s, other1);
      CutTwice(s, |s| - |s1|, |s| - |rest|, other);
      RangesStep(used + other, acc, entry, other1);
    }
  }

  lemma CutTwice(s: string, i: nat, j: nat, other: string)
    requires i <= j <= |s|
    ensures s[..j] + other == s[..i] + (s[i..][..j - i] + other)
    ensures s[i..][j - i..] == s[j..]
  {
  }

  lemma RangesStep(s: string, acc: seq<Range>, entry: Range, rest: string)
    requires ParseEntry(s) == Some((entry, rest))
    ensures ParseRanges(s, acc) == ParseRanges(rest, acc + [entry])
  {
  }

  lemma ClassIsLocal(s: string, other: string)
    requires ParseClass(s).Some?
    ensures var (class_, rest) := ParseClass(s).value;
            rest == s[|s| - |rest|..] && ParseClass(s[..|s| - |rest|] + other) == Some((class_, other))
  {
    var (class_, rest) := ParseClass(s).value;
    var used := s[..|s| - |rest|] + other;
    assert used[0] == s[0];
    if class_.negated {
      RangesAreLocal(s[1..], [], other);
      assert used[1..] == s[1..][..|s| - 1 - |rest|] + other;
    } else {
      RangesAreLocal(s, [], other);
    }
  }

  lemma {:induction false} TokenizeConcat(a: string, b: string)
    requires Tokenize(a).Some?
    ensures Tokenize(a + b) == Prepend(Tokenize(a).value, Tokenize(b))
    decreases |a|
  {
    if a == [] {
      assert a + b == b;
      PrependNothing(Tokenize(b));
    } else {
      var (t, rest) := NextToken(a).value;
      NextTokenConcat(a, b);
      TokenizeConcat(rest, b);
      PrependCons(t, Tokenize(rest).value, Tokenize(b));
    }
  }

  lemma NextTokenConcat(a: string, b: string)
    requires a != [] && NextToken(a).Some?
    ensures var (t, rest) := NextToken(a).value;
            NextToken(a + b) == Some((t, rest + b))
  {
    var rest := NextToken(a).value.1;
    if a[0] == '[' {
      var body := a[1..];
      ClassIsLocal(body, rest + b);
      assert (a + b)[1..] == body[..|body| - |rest|] + (rest + b);
    } else if a[0] == '\\' {
      assert (a + b)[2..] == rest + b;
    } else {
      assert (a + b)[1..] == rest + b;
    }
  }

  // ---- Matching a concatenation ----

  lemma {:induction false} MatchesJoin(a: seq<Token>, b: seq<Token>, x: string, y: string)
    requires Matches(a, x) && Matches(b, y)
    ensures Matches(a + b, x + y)
    decreases |a| + |x|
  {
    if a == [] {
      assert a + b == b && x + y == y;
    } else {
      assert (a + b)[1..] == a[1..] + b;
      if a[0] == Star && Matches(a[1..], x) {
        MatchesJoin(a[1..], b, x, y);
      } else {
        assert (x + y)[1..] == x[1..] + y;
        MatchesJoin(if a[0] == Star then a else a[1..], b, x[1..], y);
      }
    }
  }

  lemma {:induction false} MatchesSplit(a: seq<Token>, b: seq<Token>, s: string) returns (k: nat)
    requires Matches(a + b, s)
    ensures k <= |s| && Matches(a, s[..k]) && Matches(b, s[k..])
    decreases |a| + |s|
  {
    if a == [] {
      assert a + b == b;
      k := 0;
      assert s[0..] == s;
    } else {
      assert (a + b)[1..] == a[1..] + b;
      if a[0] == Star && Matches(a[1..] + b, s) {
        k := MatchesSplit(a[1..], b, s);
      } else {
        k := MatchesSplit(if a[0] == Star then a else a[1..], b, s[1..]);
        k := k + 1;
        assert s[..k][1..] == s[1..][..k - 1];
        assert s[k..] == s[1..][k - 1..];
      }
    }
  }

  lemma {:induction false} MatchesLits(u: string, s: string)
    ensures Matches(Lits(u), s) <==> s == u
    decreases |u|
  {
    if u == [] {
    } else {
      assert Lits(u)[1..] == Lits(u[1..]);
      if s != [] {
        MatchesLits(u[1..], s[1..]);
        assert u == [u[0]] + u[1..] && s == [s[0]] + s[1..];
      }
    }
  }

  // A pattern, then a literal key, then a pattern.
  ghost predicate SplitsAt(pre: string, key: string, post: string, name: string, i: nat)
    requires i <= |name|
  {
    PathMatch(pre, name[..i]) && key <= name[i..] && PathMatch(post, name[i + |key|..])
  }

  lemma MatchesAround(a: seq<Token>, key: string, b: seq<Token>, name: string) returns (i: nat)
    requires Matches(a + (Lits(key) + b), name)
    ensures i <= |name| && Matches(a, name[..i]) && key <= name[i..] && Matches(b, name[i + |key|..])
  {
    i := MatchesSplit(a, Lits(key) + b, name);
    var j := MatchesSplit(Lits(key), b, name[i..]);
    MatchesLits(key, name[i..][..j]);
    assert name[i..][j..] == name[i + |key|..];
  }

  lemma AroundMatches(a: seq<Token>, key: string, b: seq<Token>, name: string, i: nat)
    requires i <= |name| && Matches(a, name[..i]) && key <= name[i..] && Matches(b, name[i + |key|..])
    ensures Matches(a + (Lits(key) + b), name)
  {
    MatchesLits(key, key);
    MatchesJoin(Lits(key), b, key, name[i + |key|..]);
    assert key + name[i + |key|..] == name[i..];
    MatchesJoin(a, Lits(key) + b, name[..i], name[i..]);
    assert name[..i] + name[i..] == name;
  }

  lemma PathMatchAround(pre: string, key: string, post: string, name: string)
    requires Tokenize(pre).Some?
    ensures PathMatch(pre + Escaped(key) + post, name) <==>
            exists i :: 0 <= i <= |name| && SplitsAt(pre, key, post, name, i)
  {
    TokenizeAround(pre, key, post);
    if Tokenize(post).Some? {
      var a, b := Tokenize(pre).value, Tokenize(post).value;
      if PathMatch(pre + Escaped(key) + post, name) {
        var i := MatchesAround(a, key, b, name);
        assert SplitsAt(pre, key, post, name, i);
      }
      forall i | 0 <= i <= |name| && SplitsAt(pre, key, post, name, i)
        ensures Matches(a + (Lits(key) + b), name)
      {
        AroundMatches(a, key, b, name, i);
      }
    }
  }

  lemma TokenizeAround(pre: string, key: string, post: string)
    requires Tokenize(pre).Some?
    ensures Tokenize(pre + Escaped(key) + post) == Prepend(Tokenize(pre).value, Prepend(Lits(key), Tokenize(post)))
  {
    Assoc(pre, Escaped(key), post);
    TokenizeEscaped(key, post);
    TokenizeConcat(pre, Escaped(key) + post);
  }
}
