/**
 Redis stream IDs as the server reads and orders them.

 An ID is the text `<ms>-<seq>`. The server parses both parts with
 `strconv.ParseInt(_, 10, 64)` and throws the error away, so what matters is the
 value that call returns next to its error: 0 on a syntax error, the nearest
 int64 on a range error.
 */
module StreamIds {

  const MAX_INT64: int := 0x7FFF_FFFF_FFFF_FFFF
  const MAX_UINT64: int := 0xFFFF_FFFF_FFFF_FFFF

  function Min(a: int, b: int): int {
    if a <= b then a else b
  }

  predicate IsDigit(c: char) {
    '0' <= c <= '9'
  }

  predicate AllDigits(s: string) {
    forall i :: 0 <= i < |s| ==> IsDigit(s[i])
  }

  function DigitOf(c: char): (d: nat)
    requires IsDigit(c)
    ensures d <= 9
  {
    c as int - '0' as int
  }

  // ---- strconv.ParseInt, base 10, 64 bits ----

  datatype Magnitude = Value(n: nat) | SyntaxError | RangeError

  // The digit loop of strconv.ParseUint: it stops at the first character that is
  // not a digit or at the first overflow, whichever comes first.
  function ParseMagnitude(s: string, acc: nat): Magnitude {
    if s == [] then Value(acc)
    else if !IsDigit(s[0]) then SyntaxError
    else
      var next := 10 * acc + DigitOf(s[0]);
      if next > MAX_UINT64 then RangeError else ParseMagnitude(s[1..], next)
  }

  // The value part of strconv.ParseInt(s, 10, 64).
  function Int64Of(s: string): int {
    if s == [] then 0
    else
      var negative := s[0] == '-';
      var digits := if s[0] == '-' || s[0] == '+' then s[1..] else s;
      var magnitude := if digits == [] then SyntaxError else ParseMagnitude(digits, 0);
      match magnitude
      case SyntaxError => 0
      case RangeError => if negative then -MAX_INT64 - 1 else MAX_INT64
      case Value(n) =>
        if negative then -Min(n, MAX_INT64 + 1) else Min(n, MAX_INT64)
  }

  // The number a digit string denotes, without any bound.
  function NatOf(s: string): nat
    requires AllDigits(s)
  {
    if s == [] then 0 else 10 * NatOf(s[..|s| - 1]) + DigitOf(s[|s| - 1])
  }

  // Left-to-right reading agrees with positional value, up to saturation.
  lemma {:induction false} ParseMagnitudeIsNatOf(front: string, rest: string)
    requires AllDigits(front) && AllDigits(rest)
    requires NatOf(front) <= MAX_UINT64
    ensures ParseMagnitude(rest, NatOf(front)) ==
            if NatOf(front + rest) <= MAX_UINT64 then Value(NatOf(front + rest)) else RangeError
    decreases |rest|
  {
    if rest == [] {
      assert front + rest == front;
    } else {
      var longer := front + [rest[0]];
      assert longer[..|longer| - 1] == front;
      assert longer + rest[1..] == front + rest;
      if NatOf(longer) <= MAX_UINT64 {
        ParseMagnitudeIsNatOf(longer, rest[1..]);
      } else {
        NatOfGrows(longer, rest[1..]);
      }
    }
  }

  lemma {:induction false} NatOfGrows(front: string, rest: string)
    requires AllDigits(front) && AllDigits(rest)
    ensures NatOf(front) <= NatOf(front + rest)
    decreases |rest|
  {
    if rest == [] {
      assert front + rest == front;
    } else {
      NatOfGrows(front, rest[..|rest| - 1]);
      var whole := front + rest;
      assert whole[..|whole| - 1] == front + rest[..|rest| - 1];
    }
  }

  // ParseInt on a run of digits is the number itself, saturated at int64.
  lemma Int64OfDigits(s: string)
    requires s != [] && AllDigits(s)
    ensures Int64Of(s) == Min(NatOf(s), MAX_INT64)
  {
    ParseMagnitudeIsNatOf([], s);
    assert [] + s == s;
  }

  // ---- splitStreamID, compareStreamIDs, StreamIDLess ----

  // strings.IndexByte(s, '-'), as the length of the text before the dash.
  function DashAt(s: string): (i: nat)
    ensures i <= |s|
    ensures forall k :: 0 <= k < i ==> s[k] != '-'
    ensures i < |s| ==> s[i] == '-'
  {
    if s == [] || s[0] == '-' then 0 else 1 + DashAt(s[1..])
  }

  datatype Parts = Parts(ms: int, seqNo: int)

  function SplitStreamId(id: string): Parts {
    var i := DashAt(id);
    if i == |id| then Parts(Int64Of(id), 0)
    else Parts(Int64Of(id[..i]), Int64Of(id[i + 1..]))
  }

  function CompareParts(a: Parts, b: Parts): int {
    if a.ms != b.ms then (if a.ms < b.ms then -1 else 1)
    else if a.seqNo != b.seqNo then (if a.seqNo < b.seqNo then -1 else 1)
    else 0
  }

  function CompareStreamIds(a: string, b: string): int {
    CompareParts(SplitStreamId(a), SplitStreamId(b))
  }

  // strings.Cut(s, "-"): a text without a dash has an empty second part.
  function Cut(s: string): (string, string) {
    var i := DashAt(s);
    if i == |s| then (s, "") else (s[..i], s[i + 1..])
  }

  predicate StreamIdLess(a: string, b: string) {
    var (aMs, aSeq) := Cut(a);
    var (bMs, bSeq) := Cut(b);
    if Int64Of(aMs) != Int64Of(bMs) then Int64Of(aMs) < Int64Of(bMs)
    else Int64Of(aSeq) < Int64Of(bSeq)
  }

  // The two independent implementations of the order are the same relation on
  // all strings, malformed ones included.
  lemma LessIsCompareBelowZero(a: string, b: string)
    ensures StreamIdLess(a, b) <==> CompareStreamIds(a, b) < 0
  {
    assert Int64Of("") == 0;
  }

  // A total preorder on strings whose ties are exactly the equal (ms, seq) pairs.
  lemma CompareIsTotalOrder(a: string, b: string, c: string)
    ensures CompareStreamIds(a, b) == -CompareStreamIds(b, a)
    ensures CompareStreamIds(a, b) <= 0 && CompareStreamIds(b, c) <= 0 ==> CompareStreamIds(a, c) <= 0
    ensures CompareStreamIds(a, b) == 0 <==> SplitStreamId(a) == SplitStreamId(b)
  {
  }

  // ---- Numeric IDs and their text ----

  datatype Id = Id(ms: nat, seqNo: nat) {
    predicate Below(other: Id) {
      ms < other.ms || (ms == other.ms && seqNo < other.seqNo)
    }

    predicate FitsInt64() {
      ms <= MAX_INT64 && seqNo <= MAX_INT64
    }
  }

  function NatText(n: nat): (s: string)
    ensures s != [] && AllDigits(s)
  {
    var last := ('0' as int + n % 10) as char;
    if n < 10 then [last] else NatText(n / 10) + [last]
  }

  lemma {:induction false} NatTextRoundTrip(n: nat)
    ensures NatOf(NatText(n)) == n
  {
    var s := NatText(n);
    if n < 10 {
      assert s[..|s| - 1] == [];
    } else {
      NatTextRoundTrip(n / 10);
      assert s[..|s| - 1] == NatText(n / 10);
    }
  }

  function IdText(id: Id): string {
    NatText(id.ms) + "-" + NatText(id.seqNo)
  }

  predicate IsStreamIdText(s: string) {
    var i := DashAt(s);
    0 < i < |s| - 1 && AllDigits(s[..i]) && AllDigits(s[i + 1..])
  }

  // One dash with at least one digit on each side and nothing else.
  lemma StreamIdTextIff(s: string)
    ensures IsStreamIdText(s) <==>
            exists i :: 0 < i < |s| - 1 && s[i] == '-' && forall k :: 0 <= k < |s| && k != i ==> '0' <= s[k] <= '9'
  {
    var i := DashAt(s);
    if IsStreamIdText(s) {
      forall k | 0 <= k < |s| && k != i ensures '0' <= s[k] <= '9' {
        if k < i {
          assert s[..i][k] == s[k];
        } else {
          assert s[i + 1..][k - i - 1] == s[k];
        }
      }
    }
    forall j | 0 < j < |s| - 1 && s[j] == '-' && forall k :: 0 <= k < |s| && k != j ==> '0' <= s[k] <= '9'
      ensures IsStreamIdText(s)
    {
      assert i == j;
      var seqText := s[i + 1..];
      assert forall k :: 0 <= k < |seqText| ==> seqText[k] == s[k + i + 1];
    }
  }

  // The ID a text of the shape <digits>-<digits> denotes, without any bound.
  function IdOf(s: string): Id
    requires IsStreamIdText(s)
  {
    Id(NatOf(s[..DashAt(s)]), NatOf(s[DashAt(s) + 1..]))
  }

  lemma DashAfterDigits(front: string, rest: string)
    requires AllDigits(front)
    ensures DashAt(front + "-" + rest) == |front|
  {
    var s := front + "-" + rest;
    assert s[|front|] == '-';
    assert forall k :: 0 <= k < |front| ==> s[k] == front[k] && s[k] != '-';
  }

  // Text and number are inverse: the text of an ID denotes that ID.
  lemma IdTextRoundTrip(id: Id)
    ensures IsStreamIdText(IdText(id)) && IdOf(IdText(id)) == id
  {
    var ms, sq := NatText(id.ms), NatText(id.seqNo);
    DashAfterDigits(ms, sq);
    assert IdText(id)[..|ms|] == ms;
    assert IdText(id)[|ms| + 1..] == sq;
    NatTextRoundTrip(id.ms);
    NatTextRoundTrip(id.seqNo);
  }

  // What the server reads out of a well-formed ID: each part saturated at int64.
  lemma SplitSaturates(s: string)
    requires IsStreamIdText(s)
    ensures SplitStreamId(s) == Parts(Min(IdOf(s).ms, MAX_INT64), Min(IdOf(s).seqNo, MAX_INT64))
  {
    var i := DashAt(s);
    Int64OfDigits(s[..i]);
    Int64OfDigits(s[i + 1..]);
  }

  // On IDs whose parts fit in int64 the textual comparison is the numeric order.
  lemma CompareIsNumeric(a: Id, b: Id)
    requires a.FitsInt64() && b.FitsInt64()
    ensures CompareStreamIds(IdText(a), IdText(b)) < 0 <==> a.Below(b)
    ensures CompareStreamIds(IdText(a), IdText(b)) == 0 <==> a == b
  {
    IdTextRoundTrip(a);
    IdTextRoundTrip(b);
    SplitSaturates(IdText(a));
    SplitSaturates(IdText(b));
  }

  // In numbers: parts below two to the sixty-third, in decimal.
  lemma CompareIsNumericBelow(a: Id, b: Id)
    requires a.ms < 0x8000_0000_0000_0000 && a.seqNo < 0x8000_0000_0000_0000
    requires b.ms < 0x8000_0000_0000_0000 && b.seqNo < 0x8000_0000_0000_0000
    ensures CompareStreamIds(IdText(a), IdText(b)) ==
            if a.ms < b.ms || (a.ms == b.ms && a.seqNo < b.seqNo) then -1 else if a == b then 0 else 1
  {
    CompareIsNumeric(a, b);
    CompareIsNumeric(b, a);
  }

  lemma DecimalExamples()
    ensures NatText(9) == "9" && NatText(10) == "10" && NatOf("1907") == 1907
    ensures CompareStreamIds("1000-2", "1000-10") == -1 && StreamIdLess("9-0", "10-0")
  {
    assert "1907"[..3] == "190" && "190"[..2] == "19" && "19"[..1] == "1" && "1"[..0] == "";
    TextExamples();
    CompareIsNumericBelow(Id(1000, 2), Id(1000, 10));
    CompareIsNumericBelow(Id(9, 0), Id(10, 0));
    LessIsCompareBelowZero("9-0", "10-0");
  }

  lemma TextExamples()
    ensures NatText(9) == "9" && NatText(10) == "10"
    ensures IdText(Id(1000, 2)) == "1000-2" && IdText(Id(1000, 10)) == "1000-10"
    ensures IdText(Id(9, 0)) == "9-0" && IdText(Id(10, 0)) == "10-0"
  {
    assert NatText(0) == "0" && NatText(1) == "1" && NatText(2) == "2" && NatText(9) == "9";
    assert NatText(10) == NatText(1) + ['0'] == "10";
    assert NatText(100) == NatText(10) + ['0'] == "100";
    assert NatText(1000) == NatText(100) + ['0'] == "1000";
    assert "1000" + "-" + "2" == "1000-2" && "1000" + "-" + "10" == "1000-10";
    assert "9" + "-" + "0" == "9-0" && "10" + "-" + "0" == "10-0";
  }

  lemma SignExamples()
    ensures Int64Of("-12") == -12 && Int64Of("+12") == 12 && Int64Of("1x") == 0 && Int64Of("") == 0 && Int64Of("-") == 0
    ensures SplitStreamId("12") == Parts(12, 0) && SplitStreamId("12-2") == Parts(12, 2)
  {
    assert "12-2"[..2] == "12" && "12-2"[3..] == "2" && "12-2"[1..] == "2-2" && "2-2"[1..] == "-2";
    assert DashAt("-2") == 0 && DashAt("2-2") == 1 && DashAt("12-2") == 2;
    assert DashAt("12") == 2;
    assert ParseMagnitude("2", 0) == Value(2);
    assert "-12"[1..] == "12" && "+12"[1..] == "12" && "12"[1..] == "2" && "2"[1..] == "" && "1x"[1..] == "x" && "-"[1..] == "";
    assert ParseMagnitude("2", 1) == Value(12) && ParseMagnitude("12", 0) == Value(12);
    assert ParseMagnitude("x", 1) == SyntaxError && ParseMagnitude("1x", 0) == SyntaxError;
  }

  // Exactly when two different IDs are mistaken for the same one: when no
  // difference between them survives saturation.
  lemma SaturationTies(a: Id, b: Id)
    ensures CompareStreamIds(IdText(a), IdText(b)) == 0 <==>
            && (a.ms == b.ms || (a.ms >= MAX_INT64 && b.ms >= MAX_INT64))
            && (a.seqNo == b.seqNo || (a.seqNo >= MAX_INT64 && b.seqNo >= MAX_INT64))
  {
    IdTextRoundTrip(a);
    IdTextRoundTrip(b);
    SplitSaturates(IdText(a));
    SplitSaturates(IdText(b));
  }
}
