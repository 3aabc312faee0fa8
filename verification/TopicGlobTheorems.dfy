/**
 What the topic rules promise (authz/authz.go): a substituted user key is matched
 literally, patterns respect segment counts, and a placeholder that fills whole
 segments keeps the keys apart.
 */
module TopicGlobTheorems {
  import opened Basics
  import opened TopicGlobs

  // ---- What each part of a pattern means ----

  // A star takes any text without a separator, `?` one character other than it, a class
  // one character inside or outside its ranges, anything else itself.
  lemma {:induction false} StarMeans(rest: seq<Token>, s: string)
    ensures Matches([Star] + rest, s) <==>
            exists k :: 0 <= k <= |s| && '/' !in s[..k] && Matches(rest, s[k..])
  {
    assert ([Star] + rest)[1..] == rest;
    if s == [] {
      assert s[0..] == s;
    } else {
      StarMeans(rest, s[1..]);
      StarTakesOneMore(rest, s);
    }
  }

  lemma StarTakesOneMore(rest: seq<Token>, s: string)
    requires s != []
    ensures (exists k :: 0 <= k <= |s| && '/' !in s[..k] && Matches(rest, s[k..])) <==>
            || Matches(rest, s)
            || (s[0] != '/' && exists k :: 0 <= k <= |s[1..]| && '/' !in s[1..][..k] && Matches(rest, s[1..][k..]))
  {
    assert s[0..] == s;
    forall k | 1 <= k <= |s| ensures s[k..] == s[1..][k - 1..] && s[..k] == [s[0]] + s[1..][..k - 1] {
    }
    if k :| 0 <= k <= |s[1..]| && '/' !in s[1..][..k] && Matches(rest, s[1..][k..]) && s[0] != '/' {
      assert s[k + 1..] == s[1..][k..] && s[..k + 1] == [s[0]] + s[1..][..k];
    }
  }

  lemma OneCharacterMeans(t: Token, rest: seq<Token>, s: string)
    requires t != Star
    ensures Matches([t] + rest, s) <==> s != [] && Takes(t, s[0]) && Matches(rest, s[1..])
  {
    assert ([t] + rest)[1..] == rest;
  }

  predicate Takes(t: Token, c: char) {
    match t
    case Lit(l) => c == l
    case AnyChar => c != '/'
    case Star => false
    case Class(negated, ranges) =>
      if negated then forall i :: 0 <= i < |ranges| ==> c < ranges[i].0 || ranges[i].1 < c
      else exists i :: 0 <= i < |ranges| && ranges[i].0 <= c && c <= ranges[i].1
  }

  // How each part is written.
  lemma TokensAreWritten(c: char, rest: string)
    ensures Tokenize("*" + rest) == Cons(Star, Tokenize(rest))
    ensures Tokenize("?" + rest) == Cons(AnyChar, Tokenize(rest))
    ensures Tokenize(['\\', c] + rest) == Cons(Lit(c), Tokenize(rest))
    ensures c !in {'*', '?', '\\', '['} ==> Tokenize([c] + rest) == Cons(Lit(c), Tokenize(rest))
    ensures Tokenize("\\") == None
  {
    assert ("*" + rest)[1..] == rest && ("?" + rest)[1..] == rest;
    assert (['\\', c] + rest)[2..] == rest && ([c] + rest)[1..] == rest;
  }

  // The text of a class with these ranges, every character escaped.
  function ClassText(ranges: seq<Range>): string {
    if ranges == [] then []
    else ['\\', ranges[0].0, '-', '\\', ranges[0].1] + ClassText(ranges[1..])
  }

  lemma {:induction false} RangesAreWritten(ranges: seq<Range>, acc: seq<Range>, rest: string)
    requires ranges != [] || acc != []
    ensures ParseRanges(ClassText(ranges) + "]" + rest, acc) == Some((acc + ranges, rest))
    decreases |ranges|
  {
    if ranges == [] {
      assert ClassText(ranges) + "]" + rest == "]" + rest;
      assert ("]" + rest)[1..] == rest && acc + [] == acc;
    } else {
      var tail := ClassText(ranges[1..]) + "]" + rest;
      RangesAreWritten(ranges[1..], acc + [ranges[0]], rest);
      ClassTextSplits(ranges, rest);
      EntryIsWritten(ranges[0], tail);
      RangesStep(ClassText(ranges) + "]" + rest, acc, ranges[0], tail);
      assert acc + [ranges[0]] + ranges[1..] == acc + ranges;
    }
  }

  lemma ClassTextSplits(ranges: seq<Range>, rest: string)
    requires ranges != []
    ensures ClassText(ranges) + "]" + rest ==
            ['\\', ranges[0].0, '-', '\\', ranges[0].1] + (ClassText(ranges[1..]) + "]" + rest)
  {
    assert ClassText(ranges) == ['\\', ranges[0].0, '-', '\\', ranges[0].1] + ClassText(ranges[1..]);
  }

  lemma EntryIsWritten(range: Range, tail: string)
    requires tail != []
    ensures ParseEntry(['\\', range.0, '-', '\\', range.1] + tail) == Some((range, tail))
  {
    var s := ['\\', range.0, '-', '\\', range.1] + tail;
    assert s[2..] == ['-', '\\', range.1] + tail;
    assert s[2..][1..] == ['\\', range.1] + tail;
    assert (['\\', range.1] + tail)[2..] == tail;
  }

  // A class of any ranges, negated or not, is written and read back.
  lemma ClassIsWritten(negated: bool, ranges: seq<Range>, rest: string)
    requires ranges != []
    ensures Tokenize((if negated then "[^" else "[") + ClassText(ranges) + "]" + rest) ==
            Cons(Class(negated, ranges), Tokenize(rest))
  {
    var body := ClassText(ranges) + "]" + rest;
    RangesAreWritten(ranges, [], rest);
    assert [] + ranges == ranges && body[0] == '\\';
    if negated {
      assert "[^" + ClassText(ranges) + "]" + rest == ['[', '^'] + body;
      NegatedReads(body, ranges, rest);
    } else {
      assert "[" + ClassText(ranges) + "]" + rest == ['['] + body;
      PlainReads(body, ranges, rest);
    }
  }

  lemma PlainReads(body: string, ranges: seq<Range>, rest: string)
    requires ParseRanges(body, []) == Some((ranges, rest)) && body != [] && body[0] != '^'
    ensures Tokenize(['['] + body) == Cons(Class(false, ranges), Tokenize(rest))
  {
    var p := ['['] + body;
    assert p[1..] == body;
    assert ParseClass(body) == Some((Class(false, ranges), rest));
    assert NextToken(p) == Some((Class(false, ranges), rest));
  }

  lemma NegatedReads(body: string, ranges: seq<Range>, rest: string)
    requires ParseRanges(body, []) == Some((ranges, rest))
    ensures Tokenize(['[', '^'] + body) == Cons(Class(true, ranges), Tokenize(rest))
  {
    var p, class_ := ['[', '^'] + body, ['^'] + body;
    assert p[1..] == class_ && class_[0] == '^' && class_[1..] == body;
    assert ParseClass(class_) == Some((Class(true, ranges), rest));
    assert NextToken(p) == Some((Class(true, ranges), rest));
  }

  // What path.Match refuses: a class without an end or without an entry, an entry that
  // starts with '-' or ']', a range or a backslash cut short.
  lemma MalformedPatterns(c: char)
    requires c !in {'-', ']', '\\', '^', '['}
    ensures Tokenize("[") == None && Tokenize("[]") == None && Tokenize("[^]") == None && Tokenize("[\\") == None
    ensures Tokenize(['[', c]) == None && Tokenize(['[', c, '-', ']']) == None && Tokenize(['[', '-', c, ']']) == None
  {
    assert "["[1..] == "" && "[]"[1..] == "]" && "[^]"[1..] == "^]" && "^]"[1..] == "]" && "[\\"[1..] == "\\";
    assert ['[', c][1..] == [c] && ['[', c, '-', ']'][1..] == [c, '-', ']'] && ['[', '-', c, ']'][1..] == ['-', c, ']'];
    assert [c, '-', ']'][1..] == ['-', ']'] && ['-', ']'][1..] == [']'];
  }

  lemma MetaCharacters(c: char)
    ensures EscapeChar(c) == if c in {'*', '?', '[', ']', '\\'} then ['\\', c] else [c]
    ensures Dots([c]) == if c == '.' then "/" else [c]
  {
  }

  // The bare "*" matches every topic.
  lemma BareStarMatches(topic: string)
    ensures MatchTopic("*", topic)
  {
  }

  predicate PlaceholderAt(p: string, i: nat)
    requires i <= |p|
  {
    "{userKey}" <= p[i..]
  }

  ghost predicate NoneBefore(p: string, n: nat)
    requires n <= |p|
  {
    forall i :: 0 <= i < n ==> !PlaceholderAt(p, i)
  }

  lemma NoneBeforeTail(c: char, later: string, n: nat)
    requires n <= |later| && NoneBefore([c] + later, n + 1)
    ensures NoneBefore(later, n) && !HoleAt([c] + later)
  {
    var p := [c] + later;
    assert p[0..] == p && !PlaceholderAt(p, 0);
    forall i | 0 <= i < n ensures !PlaceholderAt(later, i) {
      assert !PlaceholderAt(p, i + 1) && p[i + 1..] == later[i..];
    }
  }

  // Substitution replaces every placeholder, from left to right, and nothing else.
  lemma {:induction false} ReplacesAll(pre: string, rest: string, key: string)
    requires NoneBefore(pre + ("{userKey}" + rest), |pre|)
    ensures Expand(pre + ("{userKey}" + rest), key) == pre + (Escaped(key) + Expand(rest, key))
    decreases |pre|
  {
    var tail := "{userKey}" + rest;
    if pre == [] {
      assert pre + tail == tail && tail[|HOLE|..] == rest && HoleAt(tail);
      assert pre + (Escaped(key) + Expand(rest, key)) == Escaped(key) + Expand(rest, key);
    } else {
      assert pre + tail == [pre[0]] + (pre[1..] + tail);
      NoneBeforeTail(pre[0], pre[1..] + tail, |pre| - 1);
      ReplacesAll(pre[1..], rest, key);
      ExpandStep(pre[0], pre[1..] + tail, key);
      assert pre == [pre[0]] + pre[1..];
      Assoc([pre[0]], pre[1..], Escaped(key) + Expand(rest, key));
    }
  }

  lemma ExpandStep(c: char, rest: string, key: string)
    requires !HoleAt([c] + rest)
    ensures Expand([c] + rest, key) == [c] + Expand(rest, key)
  {
    assert ([c] + rest)[1..] == rest;
  }

  lemma {:induction false} ReplacesNothingElse(p: string, key: string)
    requires NoneBefore(p, |p|)
    ensures Expand(p, key) == p
  {
    if p == [] {
    } else {
      assert p == [p[0]] + p[1..];
      NoneBeforeTail(p[0], p[1..], |p| - 1);
      ReplacesNothingElse(p[1..], key);
      ExpandStep(p[0], p[1..], key);
    }
  }

  // ---- Swapping '.' for '/' commutes with the substitution ----

  lemma {:induction false} DotsConcat(a: string, b: string)
    ensures Dots(a + b) == Dots(a) + Dots(b)
  {
  }

  lemma {:induction false} DotsEscaped(s: string)
    ensures Dots(Escaped(s)) == Escaped(Dots(s))
  {
    if s == [] {
    } else {
      DotsEscaped(s[1..]);
      DotsConcat(EscapeChar(s[0]), Escaped(s[1..]));
      assert Dots(s)[1..] == Dots(s[1..]);
      assert Dots(EscapeChar(s[0])) == EscapeChar(Dot(s[0]));
    }
  }

  lemma HoleSurvivesDots(p: string)
    ensures HoleAt(Dots(p)) <==> HoleAt(p)
  {
    assert forall i :: 0 <= i < |HOLE| ==> HOLE[i] != '.' && HOLE[i] != '/';
    if |p| >= |HOLE| {
      assert forall i :: 0 <= i < |HOLE| ==> (Dots(p)[i] == HOLE[i] <==> p[i] == HOLE[i]);
      assert HoleAt(p) <==> p[..|HOLE|] == HOLE;
      assert HoleAt(Dots(p)) <==> Dots(p)[..|HOLE|] == HOLE;
      if forall i :: 0 <= i < |HOLE| ==> p[i] == HOLE[i] {
        assert p[..|HOLE|] == HOLE && Dots(p)[..|HOLE|] == HOLE;
      }
    }
  }

  lemma {:induction false} DotsExpand(p: string, key: string)
    ensures Dots(Expand(p, key)) == Expand(Dots(p), Dots(key))
    decreases |p|
  {
    HoleSurvivesDots(p);
    if p == [] {
    } else if HoleAt(p) {
      var rest := p[|HOLE|..];
      DotsExpand(rest, key);
      DotsEscaped(key);
      DotsConcat(Escaped(key), Expand(rest, key));
      assert Dots(p)[|HOLE|..] == Dots(rest);
    } else {
      DotsExpand(p[1..], key);
      DotsConcat([p[0]], Expand(p[1..], key));
      assert Dots(p)[1..] == Dots(p[1..]);
    }
  }

  // ---- The substituted key is literal ----

  lemma {:induction false} ExpandJoins(p: string, key: string)
    ensures Expand(p, key) == Join(Parts(p), Escaped(key))
    decreases |p|
  {
    if p == [] {
    } else if HoleAt(p) {
      var rest := p[|HOLE|..];
      ExpandJoins(rest, key);
      JoinHole(Parts(rest), Escaped(key));
      assert Parts(p) == [[]] + Parts(rest);
    } else {
      ExpandJoins(p[1..], key);
      JoinHead(p[0], Parts(p[1..]), Escaped(key));
    }
  }

  lemma JoinHole(parts: seq<string>, filler: string)
    requires parts != []
    ensures Join([[]] + parts, filler) == filler + Join(parts, filler)
  {
    assert ([[]] + parts)[1..] == parts;
    assert [] + filler == filler;
  }

  lemma JoinHead(c: char, parts: seq<string>, filler: string)
    requires parts != []
    ensures Join([[c] + parts[0]] + parts[1..], filler) == [c] + Join(parts, filler)
  {
    var longer := [[c] + parts[0]] + parts[1..];
    if |parts| > 1 {
      assert longer[1..] == parts[1..];
      var tail := Join(parts[1..], filler);
      assert ([c] + parts[0]) + filler + tail == [c] + (parts[0] + filler + tail);
    }
  }

  lemma {:induction false} JoinMeans(parts: seq<string>, key: string, name: string)
    requires parts != [] && HolesStandAlone(parts)
    ensures PathMatch(Join(parts, Escaped(key)), name) <==> Means(parts, key, name)
    decreases |parts|, 1
  {
    if |parts| > 1 {
      var post := Join(parts[1..], Escaped(key));
      PathMatchAround(parts[0], key, post, name);
      forall i | 0 <= i <= |name|
        ensures SplitsAt(parts[0], key, post, name, i) <==> MeansAt(parts, key, name, i)
      {
        JoinMeansAt(parts, key, name, i);
      }
    }
  }

  lemma {:induction false} JoinMeansAt(parts: seq<string>, key: string, name: string, i: nat)
    requires |parts| > 1 && HolesStandAlone(parts) && i <= |name|
    ensures SplitsAt(parts[0], key, Join(parts[1..], Escaped(key)), name, i) <==> MeansAt(parts, key, name, i)
    decreases |parts|, 0
  {
    if key <= name[i..] {
      JoinMeans(parts[1..], key, name[i + |key|..]);
    }
  }

  /**
   Substitution: unless the expanded pattern is the bare "*", a topic matches it
   exactly when the topic is a match of the text before the first placeholder, the
   user key character for character, a match of the text up to the next
   placeholder, and so on. '.' and '/' are the same character throughout.
   */
  lemma SubstitutedKeyIsLiteral(p: string, userKey: string, topic: string)
    requires HolesStandAlone(Parts(Dots(p)))
    ensures Grants(p, userKey, topic) <==>
            Expand(p, userKey) == "*" || Means(Parts(Dots(p)), Dots(userKey), Dots(topic))
  {
    DotsExpand(p, userKey);
    ExpandJoins(Dots(p), Dots(userKey));
    JoinMeans(Parts(Dots(p)), Dots(userKey), Dots(topic));
  }

  // The bare "*" is never the work of a non-empty key.
  lemma {:induction false} BareStar(p: string, userKey: string)
    requires userKey != ""
    ensures Expand(p, userKey) == "*" <==> p == "*"
  {
    assert |EscapeChar(userKey[0])| >= 1 && EscapeChar(userKey[0])[0] != '*';
    assert Escaped(userKey)[0] == EscapeChar(userKey[0])[0];
    if p != [] && !HoleAt(p) {
      var rest := Expand(p[1..], userKey);
      assert rest == [] <==> p[1..] == [];
      assert p == [p[0]] + p[1..];
    }
    assert Expand("*", userKey) == "*" by {
      assert "*"[1..] == "";
    }
  }

  // One placeholder: prefix match, key, suffix match.
  lemma OnePlaceholder(p: string, pre: string, post: string, userKey: string, topic: string)
    requires Parts(Dots(p)) == [pre, post] && Tokenize(pre).Some? && userKey != ""
    ensures Grants(p, userKey, topic) <==>
            exists i :: 0 <= i <= |topic| && SplitsAt(pre, Dots(userKey), post, Dots(topic), i)
  {
    var name, key := Dots(topic), Dots(userKey);
    SubstitutedKeyIsLiteral(p, userKey, topic);
    BareStar(p, userKey);
    StarHasNoPlaceholder(p);
    var parts := Parts(Dots(p));
    assert parts[0] == pre && parts[1] == post && |topic| == |name|;
    TwoPartsMean(parts, key, name);
  }

  lemma TwoPartsMean(parts: seq<string>, key: string, name: string)
    requires |parts| == 2
    ensures Means(parts, key, name) <==> exists i :: 0 <= i <= |name| && SplitsAt(parts[0], key, parts[1], name, i)
  {
    assert parts[1..] == [parts[1]];
    forall i | 0 <= i <= |name|
      ensures MeansAt(parts, key, name, i) <==> SplitsAt(parts[0], key, parts[1], name, i)
    {
    }
  }

  lemma StarHasNoPlaceholder(p: string)
    ensures p == "*" ==> |Parts(Dots(p))| == 1
  {
    if p == "*" {
      assert Dots(p) == "*" && !HoleAt("*") && "*"[1..] == "";
      assert Parts("")[1..] == [];
    }
  }

  // Keys that differ only in '.' against '/' are granted the same topics.
  lemma SeparatorsAreIdentified(p: string, u: string, v: string, topic: string)
    requires Dots(u) == Dots(v)
    ensures Grants(p, u, topic) <==> Grants(p, v, topic)
  {
    DotsExpand(p, u);
    DotsExpand(p, v);
    if u != "" {
      assert |v| == |Dots(u)|;
      BareStar(p, u);
      BareStar(p, v);
    } else {
      assert |v| == |Dots(u)|;
    }
  }

  // An empty key can turn a pattern into the bare "*", which matches every topic,
  // although no topic outside one segment fits the pattern's meaning.
  lemma EmptyKeyOpensEverything(topic: string)
    requires '/' in Dots(topic)
    ensures Grants("{userKey}*", "", topic) && HolesStandAlone(Parts(Dots("{userKey}*")))
    ensures !Means(Parts(Dots("{userKey}*")), "", Dots(topic))
  {
    var p, name := "{userKey}*", Dots(topic);
    assert Dots(p) == p && p[|HOLE|..] == "*" && "*"[1..] == "";
    assert HoleAt(p) && !HoleAt("*");
    assert ['*'] + "" == "*";
    assert Parts("") == [""] && Parts("*") == [['*'] + ""] + [""][1..] == ["*"];
    assert Parts(p) == [""] + ["*"] == ["", "*"];
    assert Expand("*", "") == "*" && Expand(p, "") == "*";
    assert Join(["", "*"], Escaped("")) == "*";
    JoinMeans(["", "*"], "", name);
    StarStaysInSegment(name);
  }

  lemma {:induction false} StarStaysInSegment(name: string)
    ensures PathMatch("*", name) <==> '/' !in name
  {
    assert "*"[1..] == "" && Tokenize("").value == [];
    assert Tokenize("*").value == [Star] + [] == [Star];
    if name == [] {
    } else {
      StarStaysInSegment(name[1..]);
      assert name == [name[0]] + name[1..];
      assert [Star][1..] == [] && !Matches([], name);
      assert Matches([Star], name) <==> name[0] != '/' && Matches([Star], name[1..]);
    }
  }

  // A placeholder after an unpaired backslash: the backslash takes the escape the
  // substitution wrote, and a star in the key becomes a wildcard.
  lemma UnpairedBackslashFreesTheKey(rest: string)
    requires '/' !in Dots(rest)
    ensures Grants("\\{userKey}", "*", "\\" + rest) && !HolesStandAlone(Parts(Dots("\\{userKey}")))
  {
    var p := "\\{userKey}";
    BackslashParts(p);
    assert Parts(Dots(p))[0] == "\\" && Tokenize("\\").None?;
    StarAfterBackslash(p);
    assert Dots("\\\\*") == "\\\\*";
    BackslashAndStar(Dots(rest));
    assert Dots("\\" + rest) == ['\\'] + Dots(rest);
  }

  lemma StarAfterBackslash(p: string)
    requires p == "\\{userKey}"
    ensures Expand(p, "*") == "\\\\*"
  {
    assert p[1..] == HOLE && HOLE[|HOLE|..] == "" && !HoleAt(p) && HoleAt(HOLE);
    assert Escaped("*") == "\\*" && Expand(HOLE, "*") == "\\*";
  }

  lemma BackslashAndStar(rest: string)
    requires '/' !in rest
    ensures PathMatch("\\\\*", ['\\'] + rest)
  {
    StarStaysInSegment(rest);
    var stars := Tokenize("*").value;
    assert "\\\\*" == ['\\', '\\'] + "*";
    TwoBackslashes("*");
    assert ([Lit('\\')] + stars)[1..] == stars && (['\\'] + rest)[1..] == rest;
  }

  lemma BackslashParts(p: string)
    requires p == "\\{userKey}"
    ensures Dots(p) == p && Parts(p) == ["\\", ""]
  {
    assert Dots(p) == p && p[1..] == HOLE && HOLE[|HOLE|..] == "";
    assert !HoleAt(p) && HoleAt(HOLE);
    assert Parts("") == [""] && Parts(HOLE) == [""] + [""] == ["", ""];
    assert ['\\'] + "" == "\\";
    assert Parts(p) == [['\\'] + ""] + ["", ""][1..] == ["\\", ""];
  }

  // The key has a character that is not a backslash, and the first such one is not a
  // metacharacter.
  predicate Spared(key: string) {
    key != "" && if key[0] == '\\' then Spared(key[1..]) else !IsMeta(key[0])
  }

  lemma {:induction false} SparedDots(key: string)
    ensures Spared(Dots(key)) <==> Spared(key)
  {
    if key == [] {
    } else {
      SparedDots(key[1..]);
      assert Dots(key)[1..] == Dots(key[1..]);
    }
  }

  // A backslash before such a key makes no difference: each escape the substitution
  // wrote is taken for its own backslash, and the last one escapes a plain character.
  lemma {:induction false} BackslashBeforeSpared(key: string, post: string)
    requires Spared(key)
    ensures Tokenize(['\\'] + (Escaped(key) + post)) == Tokenize(Escaped(key) + post)
  {
    var tail := Escaped(key[1..]) + post;
    Assoc(EscapeChar(key[0]), Escaped(key[1..]), post);
    assert Escaped(key) == EscapeChar(key[0]) + Escaped(key[1..]);
    if key[0] == '\\' {
      BackslashBeforeSpared(key[1..], post);
    }
    SparedStep(key[0], tail);
  }

  lemma SparedStep(c: char, tail: string)
    requires if c == '\\' then Tokenize(['\\'] + tail) == Tokenize(tail) else !IsMeta(c)
    ensures Tokenize(['\\'] + (EscapeChar(c) + tail)) == Tokenize(EscapeChar(c) + tail)
  {
    if c == '\\' {
      TwoBackslashes(['\\'] + tail);
      TwoBackslashes(tail);
      assert ['\\'] + (EscapeChar(c) + tail) == ['\\', '\\'] + (['\\'] + tail);
    } else {
      EscapeOrNot(c, tail);
      assert ['\\'] + (EscapeChar(c) + tail) == ['\\', c] + tail;
    }
  }

  lemma TwoBackslashes(tail: string)
    ensures Tokenize(['\\', '\\'] + tail) == Cons(Lit('\\'), Tokenize(tail))
  {
    assert (['\\', '\\'] + tail)[2..] == tail;
  }

  lemma EscapeOrNot(c: char, tail: string)
    requires !IsMeta(c)
    ensures Tokenize([c] + tail) == Tokenize(['\\', c] + tail)
  {
    assert ([c] + tail)[1..] == tail && (['\\', c] + tail)[2..] == tail;
  }

  // Any other key, written after a backslash, does not even match itself.
  lemma {:induction false} OthersMissThemselves(key: string)
    requires !Spared(key)
    ensures !PathMatch(['\\'] + Escaped(key), key)
  {
    var e := ['\\'] + Escaped(key);
    if key == [] {
      assert e == ['\\'];
    } else {
      var rest := Escaped(key[1..]);
      assert e[0] == '\\' && e[1] == '\\' && NextToken(e).value.0 == Lit('\\');
      if key[0] == '\\' {
        OthersMissThemselves(key[1..]);
        TwoBackslashes(['\\'] + rest);
        assert e == ['\\', '\\'] + (['\\'] + rest);
        if PathMatch(e, key) {
          TailMatches(Lit('\\'), Tokenize(['\\'] + rest).value, key);
        }
      }
    }
  }

  lemma TailMatches(t: Token, rest: seq<Token>, s: string)
    requires t != Star && Matches([t] + rest, s)
    ensures s != [] && Accepts(t, s[0]) && Matches(rest, s[1..])
  {
    assert ([t] + rest)[1..] == rest;
  }

  // The key is matched literally where a backslash ends the text before its
  // placeholder.
  ghost predicate TakenLiterally(p: string, pre: string, post: string, userKey: string, topic: string) {
    Parts(Dots(p)) == [pre + "\\", post] && Tokenize(pre).Some? ==>
      (Grants(p, userKey, topic) <==>
       exists i :: 0 <= i <= |topic| && SplitsAt(pre, Dots(userKey), post, Dots(topic), i))
  }

  lemma SparedIsLiteral(p: string, pre: string, post: string, userKey: string, topic: string)
    requires Spared(userKey)
    ensures TakenLiterally(p, pre, post, userKey, topic)
  {
    var key, parts := Dots(userKey), Parts(Dots(p));
    if parts == [pre + "\\", post] && Tokenize(pre).Some? {
      SparedDots(userKey);
      BareStar(p, userKey);
      StarHasNoPlaceholder(p);
      DotsExpand(p, userKey);
      ExpandJoins(Dots(p), key);
      assert parts[1..] == [post];
      assert Dots(Expand(p, userKey)) == pre + "\\" + Escaped(key) + post;
      BackslashInPattern(pre, key, post);
      PathMatchAround(pre, key, post, Dots(topic));
    }
  }

  lemma Regroup(a: string, b: string, c: string, d: string)
    ensures a + b + c + d == a + (b + (c + d))
  {
  }

  lemma BackslashInPattern(pre: string, key: string, post: string)
    requires Tokenize(pre).Some? && Spared(key)
    ensures Tokenize(pre + "\\" + Escaped(key) + post) == Tokenize(pre + Escaped(key) + post)
  {
    var tail := Escaped(key) + post;
    Regroup(pre, ['\\'], Escaped(key), post);
    Assoc(pre, Escaped(key), post);
    BackslashBeforeSpared(key, post);
    TokenizeConcat(pre, tail);
    TokenizeConcat(pre, ['\\'] + tail);
  }

  /**
   After an unpaired backslash a non-empty key is matched literally, in every pattern
   and by every topic, exactly if it is a spared one; any other key is denied even
   the topic that equals it by the pattern `\{userKey}`.
   */
  lemma UnpairedBackslashIff(userKey: string)
    requires userKey != ""
    ensures Spared(userKey) <==> forall p, pre, post, topic :: TakenLiterally(p, pre, post, userKey, topic)
    ensures !Spared(userKey) ==> !Grants("\\{userKey}", userKey, userKey)
  {
    if Spared(userKey) {
      forall p, pre, post, topic ensures TakenLiterally(p, pre, post, userKey, topic) {
        SparedIsLiteral(p, pre, post, userKey, topic);
      }
    } else {
      var p, key := "\\{userKey}", Dots(userKey);
      BackslashParts(p);
      SparedDots(userKey);
      BareStar(p, userKey);
      DotsExpand(p, userKey);
      ExpandJoins(Dots(p), key);
      assert ["\\", ""][1..] == [""];
      assert Dots(Expand(p, userKey)) == ['\\'] + Escaped(key);
      OthersMissThemselves(key);
      assert key[0..] == key && key[..0] == "" && key[|key|..] == "";
      assert SplitsAt("", key, "", key, 0);
      assert !TakenLiterally(p, "", "", userKey, userKey) by {
        assert "" + "\\" == "\\";
      }
    }
  }

  // ---- Placeholders in a character class ----

  lemma {:induction false} MalformedMeansNothing(parts: seq<string>, key: string, name: string, k: nat)
    requires k < |parts| - 1 && Tokenize(parts[k]).None?
    ensures !Means(parts, key, name)
    decreases |parts|
  {
    forall i | 0 <= i <= |name| ensures !MeansAt(parts, key, name, i) {
      if k > 0 && key <= name[i..] {
        MalformedMeansNothing(parts[1..], key, name[i + |key|..], k - 1);
      }
    }
  }

  // A pattern other than the bare "*" keeps its meaning for the key and the topic.
  ghost predicate KeepsMeaning(p: string, key: string, topic: string) {
    Grants(p, key, topic) <==> Means(Parts(Dots(p)), Dots(key), Dots(topic))
  }

  /**
   Substitution, exactly: non-empty keys are literal in a pattern other than the bare
   "*" if and only if its placeholders stand alone (no unpaired backslash before
   them, no character class around them) or it grants nothing to anybody.
   */
  lemma LiteralIff(p: string)
    requires p != "*"
    ensures (forall key, topic :: key != "" ==> KeepsMeaning(p, key, topic)) <==>
            HolesStandAlone(Parts(Dots(p))) || forall key, topic :: key != "" ==> !Grants(p, key, topic)
  {
    var parts := Parts(Dots(p));
    if HolesStandAlone(parts) {
      forall key, topic | key != "" ensures KeepsMeaning(p, key, topic) {
        BareStar(p, key);
        SubstitutedKeyIsLiteral(p, key, topic);
      }
    } else {
      var k :| 0 <= k < |parts| - 1 && Tokenize(parts[k]).None?;
      forall key, topic ensures KeepsMeaning(p, key, topic) <==> !Grants(p, key, topic) {
        MalformedMeansNothing(parts, Dots(key), Dots(topic), k);
      }
    }
  }

  // A placeholder in a class, which ParseRules accepts: a plain key works as a range.
  lemma ClassFreesTheKey(c: char)
    requires 'a' <= c <= 'z'
    ensures Grants("[{userKey}]", "a-z", [c]) && !HolesStandAlone(Parts(Dots("[{userKey}]")))
  {
    var p := "[{userKey}]";
    ClassParts(p);
    ClassExpands(p);
    assert Parts(Dots(p))[0] == "[";
    assert Dots("[a-z]") == "[a-z]" && Dots([c]) == [c];
    RangeMatches(c);
  }

  lemma RangeMatches(c: char)
    requires 'a' <= c <= 'z'
    ensures PathMatch("[a-z]", [c])
  {
    var class_ := Class(false, [('a', 'z')]);
    ClassRangeReads();
    assert class_.ranges[0].0 <= c <= class_.ranges[0].1;
    assert [class_][1..] == [] && [c][1..] == [];
    assert Matches([class_], [c]);
  }

  lemma ClassExpands(p: string)
    requires p == "[{userKey}]"
    ensures Expand(p, "a-z") == "[a-z]"
  {
    assert p[1..] == "{userKey}]" && p[1..][|HOLE|..] == "]" && "]"[1..] == "";
    assert !HoleAt(p) && HoleAt(p[1..]) && !HoleAt("]");
    assert "a-z"[1..] == "-z" && "-z"[1..] == "z" && "z"[1..] == "";
    assert Escaped("z") == "z" && Escaped("-z") == "-z" && Escaped("a-z") == "a-z";
    assert Expand("]", "a-z") == "]" && Expand(p[1..], "a-z") == "a-z]";
  }

  lemma ClassParts(p: string)
    requires p == "[{userKey}]"
    ensures Dots(p) == p && Parts(p) == ["[", "]"] && Tokenize("[").None?
  {
    assert p[1..] == "{userKey}]" && p[1..][|HOLE|..] == "]" && "]"[1..] == "";
    assert !HoleAt(p) && HoleAt(p[1..]) && !HoleAt("]");
    assert [']'] + "" == "]" && ['['] + "" == "[";
    assert Parts("") == [""] && Parts("]") == [[']'] + ""] + [""][1..] == ["]"];
    assert Parts(p[1..]) == [""] + ["]"] == ["", "]"];
    assert Parts(p) == [['['] + ""] + ["", "]"][1..] == ["[", "]"];
    assert "["[1..] == "";
  }

  lemma ClassRangeReads()
    ensures Tokenize("[a-z]") == Some([Class(false, [('a', 'z')])])
  {
    assert "[a-z]"[1..] == "a-z]" && "a-z]"[1..] == "-z]" && "-z]"[1..] == "z]" && "z]"[1..] == "]" && "]"[1..] == "";
    assert GetEsc("a-z]") == Some(('a', "-z]")) && GetEsc("z]") == Some(('z', "]"));
    assert ParseEntry("a-z]") == Some((('a', 'z'), "]"));
    assert [] + [('a', 'z')] == [('a', 'z')];
    assert ParseRanges("]", [('a', 'z')]) == Some(([('a', 'z')], ""));
    assert NextToken("[a-z]") == Some((Class(false, [('a', 'z')]), ""));
    assert Tokenize("").value == [];
    assert Tokenize("[a-z]") == Cons(Class(false, [('a', 'z')]), Some([]));
    assert [Class(false, [('a', 'z')])] + [] == [Class(false, [('a', 'z')])];
  }

  // ---- Segments ----

  function Slashes(s: string): nat {
    if s == [] then 0 else (if s[0] == '/' then 1 else 0) + Slashes(s[1..])
  }

  function SlashTokens(tokens: seq<Token>): nat {
    if tokens == [] then 0 else (if tokens[0] == Lit('/') then 1 else 0) + SlashTokens(tokens[1..])
  }

  predicate ClassFree(tokens: seq<Token>) {
    forall i :: 0 <= i < |tokens| ==> !tokens[i].Class?
  }

  // No character class admits the separator.
  predicate Segmented(tokens: seq<Token>) {
    forall i :: 0 <= i < |tokens| ==> tokens[i].Class? ==> !Accepts(tokens[i], '/')
  }

  lemma {:induction false} MatchKeepsSegments(tokens: seq<Token>, s: string)
    requires Matches(tokens, s) && Segmented(tokens)
    ensures Slashes(s) == SlashTokens(tokens)
    decreases |tokens| + |s|
  {
    if tokens == [] {
    } else {
      if tokens[0] == Star && Matches(tokens[1..], s) {
        MatchKeepsSegments(tokens[1..], s);
      } else {
        MatchKeepsSegments(if tokens[0] == Star then tokens else tokens[1..], s[1..]);
      }
    }
  }

  lemma {:induction false} ClassFreeTextSlashes(p: string)
    requires Tokenize(p).Some? && ClassFree(Tokenize(p).value)
    ensures SlashTokens(Tokenize(p).value) == Slashes(p)
    decreases |p|
  {
    if p == [] {
    } else {
      var (t, rest) := NextToken(p).value;
      var tokens := Tokenize(p).value;
      assert tokens[0] == t && tokens[1..] == Tokenize(rest).value;
      assert p[0] != '[';
      ClassFreeTextSlashes(rest);
      if p[0] == '\\' {
        assert p[1..][1..] == p[2..];
      }
    }
  }

  // A pattern other than the bare "*" whose classes do not admit the separator
  // matches only topics with its own number of segments. Without classes that
  // number can be read off the text.
  lemma SegmentCount(pattern: string, topic: string)
    requires pattern != "*" && MatchTopic(pattern, topic) && Segmented(Tokenize(Dots(pattern)).value)
    ensures var tokens := Tokenize(Dots(pattern)).value;
            && Slashes(Dots(topic)) == SlashTokens(tokens)
            && (ClassFree(tokens) ==> Slashes(Dots(topic)) == Slashes(Dots(pattern)))
  {
    var tokens := Tokenize(Dots(pattern)).value;
    MatchKeepsSegments(tokens, Dots(topic));
    if ClassFree(tokens) {
      ClassFreeTextSlashes(Dots(pattern));
    }
  }

  // Every class admits some character that a topic can have.
  ghost predicate Inhabited(tokens: seq<Token>) {
    forall i :: 0 <= i < |tokens| && tokens[i].Class? ==> exists c :: c != '.' && Accepts(tokens[i], c)
  }

  // A character for each token, the separator where a class admits it.
  ghost function Sample(t: Token): string
    requires t.Class? ==> exists c :: c != '.' && Accepts(t, c)
  {
    match t
    case Lit(c) => [c]
    case AnyChar => ['x']
    case Star => []
    case Class(_, _) =>
      if Accepts(t, '/') then ['/']
      else
        var c :| c != '.' && Accepts(t, c);
        [c]
  }

  ghost function Samples(tokens: seq<Token>): string
    requires Inhabited(tokens)
  {
    if tokens == [] then [] else Sample(tokens[0]) + Samples(tokens[1..])
  }

  lemma {:induction false} SamplesMatch(tokens: seq<Token>)
    requires Inhabited(tokens)
    ensures Matches(tokens, Samples(tokens))
    ensures Slashes(Samples(tokens)) >= SlashTokens(tokens)
    ensures !Segmented(tokens) ==> Slashes(Samples(tokens)) > SlashTokens(tokens)
    ensures (forall i :: 0 <= i < |tokens| ==> tokens[i] != Lit('.')) ==> '.' !in Samples(tokens)
  {
    if tokens == [] {
    } else {
      var t, rest := tokens[0], tokens[1..];
      SamplesMatch(rest);
      SampleMatches(t, rest, Samples(rest));
      if !Segmented(tokens) && !(t.Class? && Accepts(t, '/')) {
        var i :| 0 <= i < |tokens| && tokens[i].Class? && Accepts(tokens[i], '/');
        assert rest[i - 1] == tokens[i];
      }
      assert tokens == [t] + rest;
    }
  }

  lemma SampleMatches(t: Token, rest: seq<Token>, s: string)
    requires t.Class? ==> exists c :: c != '.' && Accepts(t, c)
    requires Matches(rest, s)
    ensures Matches([t] + rest, Sample(t) + s)
    ensures Slashes(Sample(t) + s) == Slashes(s) + if t == Lit('/') || (t.Class? && Accepts(t, '/')) then 1 else 0
    ensures t != Lit('.') ==> '.' !in Sample(t)
  {
    assert ([t] + rest)[1..] == rest;
    if t == Star {
      assert Sample(t) + s == s;
    } else {
      assert (Sample(t) + s)[1..] == s;
    }
  }

  // A matched class has taken a character of the name.
  lemma {:induction false} MatchedClassAccepts(tokens: seq<Token>, s: string, i: nat) returns (k: nat)
    requires Matches(tokens, s) && i < |tokens| && tokens[i].Class?
    ensures k < |s| && Accepts(tokens[i], s[k])
    decreases |tokens| + |s|
  {
    if tokens[0] == Star {
      if Matches(tokens[1..], s) {
        k := MatchedClassAccepts(tokens[1..], s, i - 1);
      } else {
        k := MatchedClassAccepts(tokens, s[1..], i);
        k := k + 1;
      }
    } else if i == 0 {
      k := 0;
    } else {
      k := MatchedClassAccepts(tokens[1..], s[1..], i - 1);
      k := k + 1;
    }
  }

  lemma {:induction false} TokensOfDotless(p: string)
    requires Tokenize(p).Some? && '.' !in p
    ensures forall i :: 0 <= i < |Tokenize(p).value| ==> Tokenize(p).value[i] != Lit('.')
    decreases |p|
  {
    if p == [] {
    } else {
      var (t, rest) := NextToken(p).value;
      if p[0] == '[' {
        ClassIsLocal(p[1..], []);
      }
      assert forall c :: c in rest ==> c in p;
      TokensOfDotless(rest);
      assert Tokenize(p).value == [t] + Tokenize(rest).value;
    }
  }

  /**
   "Wildcards stop at segment boundaries", exactly: every topic that a pattern
   matches has the pattern's own number of segments if and only if no class of the
   pattern admits the separator, or some class admits nothing at all, in which case
   the pattern matches nothing.
   */
  lemma SegmentsKeptIff(pattern: string)
    requires pattern != "*" && Tokenize(Dots(pattern)).Some?
    ensures var tokens := Tokenize(Dots(pattern)).value;
            (forall topic :: MatchTopic(pattern, topic) ==> Slashes(Dots(topic)) == SlashTokens(tokens)) <==>
            Segmented(tokens) || !Inhabited(tokens)
  {
    var tokens := Tokenize(Dots(pattern)).value;
    if Segmented(tokens) {
      forall topic | MatchTopic(pattern, topic) ensures Slashes(Dots(topic)) == SlashTokens(tokens) {
        SegmentCount(pattern, topic);
      }
    } else if Inhabited(tokens) {
      CrossingTopic(pattern);
    } else {
      forall topic ensures !MatchTopic(pattern, topic) {
        UninhabitedMatchesNothing(tokens, topic);
      }
    }
  }

  lemma CrossingTopic(pattern: string)
    requires pattern != "*" && Tokenize(Dots(pattern)).Some?
    requires Inhabited(Tokenize(Dots(pattern)).value) && !Segmented(Tokenize(Dots(pattern)).value)
    ensures exists topic :: MatchTopic(pattern, topic) && Slashes(Dots(topic)) > SlashTokens(Tokenize(Dots(pattern)).value)
  {
    var tokens := Tokenize(Dots(pattern)).value;
    var topic := Samples(tokens);
    SamplesMatch(tokens);
    TokensOfDotless(Dots(pattern));
    assert Dots(topic) == topic;
    assert MatchTopic(pattern, topic);
  }

  lemma UninhabitedMatchesNothing(tokens: seq<Token>, topic: string)
    requires !Inhabited(tokens)
    ensures !Matches(tokens, Dots(topic))
  {
    if Matches(tokens, Dots(topic)) {
      var i :| 0 <= i < |tokens| && tokens[i].Class? && !exists c :: c != '.' && Accepts(tokens[i], c);
      var k := MatchedClassAccepts(tokens, Dots(topic), i);
      assert false;
    }
  }

  // For example, a negated class takes the separator.
  lemma ClassCrossesSegments()
    ensures MatchTopic("a[^x]b", "a.b") && Slashes(Dots("a.b")) == 1 && Slashes(Dots("a[^x]b")) == 0
  {
    var class_ := Class(true, [('x', 'x')]);
    assert Dots("a[^x]b") == "a[^x]b" && Dots("a.b") == "a/b";
    ClassReads();
    var tokens := [Lit('a'), class_, Lit('b')];
    assert Accepts(class_, '/');
    assert tokens[1..] == [class_, Lit('b')] && tokens[1..][1..] == [Lit('b')] && [Lit('b')][1..] == [];
    assert "a/b"[1..] == "/b" && "/b"[1..] == "b" && "b"[1..] == "";
    assert Matches([Lit('b')], "b") && Matches([class_, Lit('b')], "/b") && Matches(tokens, "a/b");
    assert Slashes("b") == 0 && Slashes("/b") == 1 && Slashes("a/b") == 1;
    SlashesConcat("a[", "^x]b");
    SlashesConcat("^x", "]b");
    assert "a[^x]b" == "a[" + ("^x" + "]b");
    assert "a["[1..] == "[" && "^x"[1..] == "x" && "]b"[1..] == "b" && "["[1..] == "" && "x"[1..] == "";
  }

  lemma ClassReads()
    ensures Tokenize("a[^x]b") == Some([Lit('a'), Class(true, [('x', 'x')]), Lit('b')])
  {
    var class_ := Class(true, [('x', 'x')]);
    assert "a[^x]b"[1..] == "[^x]b" && "[^x]b"[1..] == "^x]b" && "^x]b"[1..] == "x]b";
    assert "x]b"[1..] == "]b" && "]b"[1..] == "b" && "b"[1..] == "";
    assert ParseEntry("x]b") == Some((('x', 'x'), "]b"));
    assert [] + [('x', 'x')] == [('x', 'x')];
    assert ParseRanges("]b", [('x', 'x')]) == Some(([('x', 'x')], "b"));
    assert NextToken("[^x]b") == Some((class_, "b"));
    assert Tokenize("b").value == [Lit('b')];
    assert Tokenize("[^x]b").value == [class_, Lit('b')];
    assert Tokenize("a[^x]b").value == [Lit('a')] + [class_, Lit('b')] == [Lit('a'), class_, Lit('b')];
  }

  // ---- Keys are kept apart ----

  ghost predicate AllSegmented(parts: seq<string>) {
    forall k :: 0 <= k < |parts| ==> Tokenize(parts[k]).Some? && Segmented(Tokenize(parts[k]).value)
  }

  predicate StartsSegment(tokens: seq<Token>) {
    tokens != [] && tokens[0] == Lit('/')
  }

  predicate EndsSegment(tokens: seq<Token>) {
    tokens != [] && tokens[|tokens| - 1] == Lit('/')
  }

  // Placeholders that fill whole segments: a separator, or the end of the pattern, on
  // each side of them, and no class that admits a separator.
  ghost predicate WholeSegments(parts: seq<string>) {
    && |parts| >= 2 && AllSegmented(parts)
    && (parts[0] == [] || EndsSegment(Tokenize(parts[0]).value))
    && (parts[|parts| - 1] == [] || StartsSegment(Tokenize(parts[|parts| - 1]).value))
    && (forall k :: 0 < k < |parts| - 1 ==> StartsSegment(Tokenize(parts[k]).value) && EndsSegment(Tokenize(parts[k]).value))
  }

  lemma {:induction false} SlashesConcat(a: string, b: string)
    ensures Slashes(a + b) == Slashes(a) + Slashes(b)
  {
    if a == [] {
      assert a + b == b;
    } else {
      SlashesConcat(a[1..], b);
      assert (a + b)[1..] == a[1..] + b;
    }
  }

  lemma {:induction false} LastTokenTakesLast(tokens: seq<Token>, s: string)
    requires tokens != [] && tokens[|tokens| - 1] == Lit('/') && Matches(tokens, s)
    ensures s != [] && s[|s| - 1] == '/'
    decreases |tokens| + |s|
  {
    if tokens[0] == Star && Matches(tokens[1..], s) {
      LastTokenTakesLast(tokens[1..], s);
    } else if tokens[0] == Star || |tokens| > 1 {
      LastTokenTakesLast(if tokens[0] == Star then tokens else tokens[1..], s[1..]);
    }
  }

  // The place of the key is the same for every key: just after the separator that
  // ends the text before it.
  lemma KeyPlace(before: seq<Token>, name: string, i: nat, j: nat)
    requires Segmented(before) && (before == [] || before[|before| - 1] == Lit('/'))
    requires i <= j <= |name| && Matches(before, name[..i]) && Matches(before, name[..j])
    ensures i == j
  {
    PlaceFacts(before, name, i);
    PlaceFacts(before, name, j);
    if i < j {
      CutAfterSeparator(name, i, j);
    }
  }

  lemma PlaceFacts(before: seq<Token>, name: string, i: nat)
    requires Segmented(before) && (before == [] || before[|before| - 1] == Lit('/'))
    requires i <= |name| && Matches(before, name[..i])
    ensures Slashes(name[..i]) == SlashTokens(before)
    ensures i == 0 || name[i - 1] == '/'
  {
    MatchKeepsSegments(before, name[..i]);
    if before != [] {
      LastTokenTakesLast(before, name[..i]);
    }
  }

  lemma CutAfterSeparator(name: string, i: nat, j: nat)
    requires i < j <= |name| && name[j - 1] == '/'
    ensures Slashes(name[..i]) < Slashes(name[..j])
  {
    assert name[..j] == name[..i] + (name[i..j - 1] + ['/']);
    SlashesConcat(name[..i], name[i..j - 1] + ['/']);
    SlashesConcat(name[i..j - 1], ['/']);
  }

  // From one place on, the key ends where its own number of separators is used up.
  lemma KeyExtent(u: string, v: string, name: string)
    requires u <= name && v <= name && |u| <= |v| && Slashes(u) == Slashes(v)
    requires name[|u|..] == "" || name[|u|] == '/'
    ensures u == v
  {
    if |u| < |v| {
      var more := name[|u| + 1..|v|];
      assert v == u + (['/'] + more);
      SlashesConcat(u, ['/'] + more);
      SlashesConcat(['/'], more);
    }
  }

  function PartSlashes(parts: seq<string>): nat
    requires forall k :: 0 <= k < |parts| ==> Tokenize(parts[k]).Some?
  {
    if parts == [] then 0 else SlashTokens(Tokenize(parts[0]).value) + PartSlashes(parts[1..])
  }

  // A match has the pattern's separators, and the key's once for each placeholder.
  lemma {:induction false} MeansKeepsSegments(parts: seq<string>, key: string, name: string)
    requires parts != [] && AllSegmented(parts) && Means(parts, key, name)
    ensures Slashes(name) == PartSlashes(parts) + (|parts| - 1) * Slashes(key)
    decreases |parts|
  {
    var tokens := Tokenize(parts[0]).value;
    if |parts| == 1 {
      MatchKeepsSegments(tokens, name);
    } else {
      var i :| 0 <= i <= |name| && MeansAt(parts, key, name, i);
      var tail := name[i + |key|..];
      MatchKeepsSegments(tokens, name[..i]);
      MeansKeepsSegments(parts[1..], key, tail);
      assert name == name[..i] + (key + tail);
      SlashesConcat(name[..i], key + tail);
      SlashesConcat(key, tail);
      OnceMore(|parts| - 2, Slashes(key));
    }
  }

  lemma OnceMore(n: int, k: int)
    ensures (n + 1) * k == n * k + k
  {
  }

  lemma SameFactor(n: int, a: nat, b: nat)
    requires n > 0 && n * a == n * b
    ensures a == b
  {
    assert n * (a - b) == 0;
  }

  // What follows a whole-segment placeholder is nothing, or starts with a separator.
  lemma TailStarts(parts: seq<string>, key: string, name: string)
    requires parts != [] && Means(parts, key, name)
    requires Tokenize(parts[0]).Some?
    requires StartsSegment(Tokenize(parts[0]).value) || (|parts| == 1 && parts[0] == [])
    ensures name == "" || name[0] == '/'
  {
    if |parts| > 1 {
      var i :| 0 <= i <= |name| && MeansAt(parts, key, name, i);
      assert name[..i] != [] && name[..i][0] == '/';
    }
  }

  // Such a pattern never becomes the bare "*", not even for the empty key.
  lemma WholeSegmentsNotStar(p: string, userKey: string)
    requires WholeSegments(Parts(Dots(p)))
    ensures Expand(p, userKey) != "*"
  {
    var parts := Parts(Dots(p));
    StarHasNoPlaceholder(p);
    if userKey != "" {
      BareStar(p, userKey);
    } else if Expand(p, userKey) == "*" {
      DotsExpand(p, userKey);
      ExpandJoins(Dots(p), "");
      assert Dots(userKey) == "" && Dots("*") == "*";
      var k := StarAmong(parts);
      NoPartIsStar(parts, k);
    }
  }

  lemma NoPartIsStar(parts: seq<string>, k: nat)
    requires WholeSegments(parts) && k < |parts|
    ensures parts[k] != "*"
  {
    assert "*"[1..] == "" && Tokenize("").value == [];
    assert Tokenize("*").value == [Star] + [] == [Star];
  }

  lemma StarSplits(a: string, b: string)
    requires a + b == "*"
    ensures a == "*" || (a == "" && b == "*")
  {
    assert (a + b)[0] == '*' && |a + b| == 1;
    assert a == "" ==> a + b == b;
    assert a != "" ==> (a + b)[0] == a[0];
  }

  lemma {:induction false} StarAmong(parts: seq<string>) returns (k: nat)
    requires parts != [] && Join(parts, "") == "*"
    ensures k < |parts| && parts[k] == "*"
    decreases |parts|
  {
    if |parts| == 1 || parts[0] == "*" {
      k := 0;
    } else {
      assert parts[0] + "" == parts[0];
      StarSplits(parts[0], Join(parts[1..], ""));
      k := StarAmong(parts[1..]);
      k := k + 1;
    }
  }

  lemma WholeSegmentsMean(p: string, userKey: string, topic: string) returns (i: nat)
    requires WholeSegments(Parts(Dots(p))) && Grants(p, userKey, topic)
    ensures i <= |topic| && MeansAt(Parts(Dots(p)), Dots(userKey), Dots(topic), i)
    ensures Means(Parts(Dots(p)), Dots(userKey), Dots(topic))
  {
    var parts, name, key := Parts(Dots(p)), Dots(topic), Dots(userKey);
    WholeSegmentsNotStar(p, userKey);
    SubstitutedKeyIsLiteral(p, userKey, topic);
    i :| 0 <= i <= |name| && MeansAt(parts, key, name, i);
  }

  // Two keys that fill the placeholders of one name, the first of them at `i`, are
  // the same.
  lemma SameKey(parts: seq<string>, u: string, v: string, name: string, i: nat)
    requires WholeSegments(parts) && i <= |name| && |u| <= |v|
    requires Means(parts, u, name) && Means(parts, v, name)
    requires MeansAt(parts, u, name, i) && MeansAt(parts, v, name, i)
    ensures u == v
  {
    MeansKeepsSegments(parts, u, name);
    MeansKeepsSegments(parts, v, name);
    SameFactor(|parts| - 1, Slashes(u), Slashes(v));
    var rest := name[i..];
    assert rest[|u|..] == name[i + |u|..];
    TailStarts(parts[1..], u, rest[|u|..]);
    assert rest[|u|..] != "" ==> rest[|u|..][0] == rest[|u|];
    KeyExtent(u, v, rest);
  }

  /**
   Tenant isolation: where the placeholders fill whole segments, two user keys are
   both granted a topic only if they are the same key up to '.' and '/'; and by
   SeparatorsAreIdentified those keys are granted exactly the same topics.
   */
  lemma KeysAreKeptApart(p: string, u: string, v: string, topic: string)
    requires WholeSegments(Parts(Dots(p)))
    requires Grants(p, u, topic) && Grants(p, v, topic)
    ensures Dots(u) == Dots(v)
  {
    var parts, name := Parts(Dots(p)), Dots(topic);
    var i := WholeSegmentsMean(p, u, topic);
    var j := WholeSegmentsMean(p, v, topic);
    var before := Tokenize(parts[0]).value;
    if i <= j {
      KeyPlace(before, name, i, j);
    } else {
      KeyPlace(before, name, j, i);
    }
    if |u| <= |v| {
      SameKey(parts, Dots(u), Dots(v), name, i);
    } else {
      SameKey(parts, Dots(v), Dots(u), name, i);
    }
  }
}
