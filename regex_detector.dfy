/**
 * `RegexDetector`: per line, the email matches, then the phone matches, then
 * the credit-card candidates that pass the Luhn check, each as a finding with
 * the line number (from 1) and the UTF-8 byte offsets of the match.
 *
 * The email and phone patterns are regular expressions evaluated by a library;
 * they are parameters here (`Patterns`), constrained only by what the regex
 * engine guarantees of `find_iter`: the matches lie inside the line and come
 * in order without overlapping. The card pattern `(?:\d[ -]?){13,16}` is
 * written out (`Chain`, `CardCandidates`).
 */
module RegexDetection {
  import opened Wrappers
  import opened Text
  import opened Errors
  import opened Models

  const EmailKind := "email"
  const PhoneKind := "phone_number"
  const CardKind := "credit_card"

  /** A match as character indices [lo, hi) into its line. */
  datatype Span = Span(lo: nat, hi: nat)

  ghost predicate Within(line: string, spans: seq<Span>)
  {
    forall k :: 0 <= k < |spans| ==> spans[k].lo <= spans[k].hi <= |line|
  }

  /** Earlier matches end before later ones begin. */
  ghost predicate Ordered(spans: seq<Span>)
  {
    forall a, b :: 0 <= a < b < |spans| ==> spans[a].hi <= spans[b].lo
  }

  /** The two library-evaluated patterns, as `find_iter` over a line. */
  datatype Patterns = Patterns(email: string -> seq<Span>, phone: string -> seq<Span>)

  ghost predicate WellFormed(p: Patterns)
  {
    forall line: string {:trigger p.email(line)} {:trigger p.phone(line)} ::
      Within(line, p.email(line)) && Ordered(p.email(line)) &&
      Within(line, p.phone(line)) && Ordered(p.phone(line))
  }

  // ---------------------------------------------------------------------------
  // Luhn check (ISO/IEC 7812-1, Annex B)

  type Digit = d: nat | d < 10

  predicate IsDigit(c: char)
  {
    '0' <= c <= '9'
  }

  predicate IsSeparator(c: char)
  {
    c == ' ' || c == '-'
  }

  /** `chars().filter_map(|c| c.to_digit(10))`: the decimal digits, in order. */
  function Digits(s: string): seq<Digit>
  {
    if s == [] then []
    else (if IsDigit(s[0]) then [(s[0] as int - '0' as int) as Digit] else []) + Digits(s[1..])
  }

  lemma {:induction false} DigitsAppend(a: string, b: string)
    ensures Digits(a + b) == Digits(a) + Digits(b)
  {
    if a == [] {
      assert a + b == b;
    } else {
      var head: seq<Digit> := if IsDigit(a[0]) then [(a[0] as int - '0' as int) as Digit] else [];
      assert (a + b)[1..] == a[1..] + b;
      assert Digits(a + b) == head + Digits(a[1..] + b);
      DigitsAppend(a[1..], b);
      assert head + (Digits(a[1..]) + Digits(b)) == (head + Digits(a[1..])) + Digits(b);
    }
  }

  /** `replace([' ', '-'], "")` */
  function StripSeparators(s: string): (r: string)
    ensures forall i :: 0 <= i < |r| ==> !IsSeparator(r[i])
  {
    if s == [] then []
    else (if IsSeparator(s[0]) then [] else [s[0]]) + StripSeparators(s[1..])
  }

  /** Removing separators loses no digit: the check sees the same digits. */
  lemma {:induction false} StripKeepsDigits(s: string)
    ensures Digits(StripSeparators(s)) == Digits(s)
  {
    if s != [] {
      StripKeepsDigits(s[1..]);
      var head := if IsSeparator(s[0]) then [] else [s[0]];
      DigitsAppend(head, StripSeparators(s[1..]));
    }
  }

  /** One digit's contribution: a doubled digit above 9 has 9 subtracted. */
  function LuhnTerm(d: Digit, double: bool): nat
  {
    if double then (if 2 * d > 9 then 2 * d - 9 else 2 * d) else d
  }

  /**
   * The Luhn sum, with positions counted from the right: the rightmost digit
   * has position 0, and digits at odd positions are doubled.
   */
  function LuhnSum(ds: seq<Digit>): nat
  {
    if ds == [] then 0 else LuhnTerm(ds[0], (|ds| - 1) % 2 == 1) + LuhnSum(ds[1..])
  }

  /** The Luhn test applied to a candidate's digits. */
  predicate LuhnValid(ds: seq<Digit>)
  {
    13 <= |ds| <= 19 && LuhnSum(ds) % 10 == 0
  }

  /**
   * `is_valid_credit_card`: collects the digits, rejects fewer than 13 or more
   * than 19, then walks them from the right with a toggling `double` flag.
   */
  method IsValidCreditCard(cardNum: string) returns (ok: bool)
    ensures ok <==> LuhnValid(Digits(cardNum))
    ensures |Digits(cardNum)| < 13 || |Digits(cardNum)| > 19 ==> !ok
  {
    var digits := Digits(cardNum);
    if |digits| < 13 || |digits| > 19 {
      return false;
    }
    var n := |digits|;
    var sum := 0;
    var double := false;
    var i := 0;
    while i < n
      invariant 0 <= i <= n
      invariant sum == LuhnSum(digits[n - i..])
      invariant double == (i % 2 == 1)
    {
      var value: nat := digits[n - 1 - i];
      if double {
        value := value * 2;
        if value > 9 {
          value := value - 9;
        }
      }
      assert digits[n - 1 - i..][1..] == digits[n - i..];
      sum := sum + value;
      double := !double;
      i := i + 1;
    }
    assert digits[n - n..] == digits;
    ok := sum % 10 == 0;
  }

  /** Reverses a digit sequence. */
  function Reverse(ds: seq<Digit>): (r: seq<Digit>)
    ensures |r| == |ds|
  {
    if ds == [] then [] else Reverse(ds[1..]) + [ds[0]]
  }

  /**
   * The standard's phrasing: reverse the digits, then double every second one
   * starting from the second.
   */
  function LuhnSumOfReversed(rev: seq<Digit>, double: bool): nat
  {
    if rev == [] then 0 else LuhnTerm(rev[0], double) + LuhnSumOfReversed(rev[1..], !double)
  }

  lemma {:induction false} LuhnSumOfReversedAppend(a: seq<Digit>, d: Digit, double: bool)
    ensures LuhnSumOfReversed(a + [d], double) ==
            LuhnSumOfReversed(a, double) + LuhnTerm(d, if |a| % 2 == 0 then double else !double)
  {
    if a == [] {
      assert a + [d] == [d];
    } else {
      assert (a + [d])[1..] == a[1..] + [d];
      LuhnSumOfReversedAppend(a[1..], d, !double);
    }
  }

  /** The position-from-the-right sum equals the standard's reversed walk. */
  lemma {:induction false} LuhnSumMatchesStandard(ds: seq<Digit>)
    ensures LuhnSum(ds) == LuhnSumOfReversed(Reverse(ds), false)
  {
    if ds != [] {
      LuhnSumMatchesStandard(ds[1..]);
      LuhnSumOfReversedAppend(Reverse(ds[1..]), ds[0], false);
    }
  }

  /** Subtracting 9 from a doubled digit is the same as adding its two decimal digits. */
  lemma DoubledTermIsDigitSum(d: Digit)
    ensures LuhnTerm(d, true) == (2 * d) / 10 + (2 * d) % 10
  {
  }

  // ---------------------------------------------------------------------------
  // The card pattern `(?:\d[ -]?){13,16}`

  const MinCardRepeats := 13
  const MaxCardRepeats := 16

  /**
   * The greedy run of `\d[ -]?` from `pos`, at most `budget` repetitions: how
   * many repetitions matched, and where the run ends. An optional separator
   * is always taken when present, also after the last repetition.
   */
  function Chain(line: string, pos: nat, budget: nat): (r: (nat, nat))
    requires pos <= |line|
    ensures pos <= r.1 <= |line|
    ensures r.0 <= budget
    ensures r.0 == 0 <==> r.1 == pos
    decreases budget
  {
    if budget == 0 || pos == |line| || !IsDigit(line[pos]) then (0, pos)
    else
      var next := if pos + 1 < |line| && IsSeparator(line[pos + 1]) then pos + 2 else pos + 1;
      var r := Chain(line, next, budget - 1);
      (r.0 + 1, r.1)
  }

  /** A run holds only digits and separators, and exactly as many digits as repetitions. */
  lemma {:induction false} ChainText(line: string, pos: nat, budget: nat)
    requires pos <= |line|
    ensures var r := Chain(line, pos, budget);
      |Digits(line[pos..r.1])| == r.0 &&
      (forall i :: pos <= i < r.1 ==> IsDigit(line[i]) || IsSeparator(line[i])) &&
      (r.0 > 0 ==> IsDigit(line[pos]))
    decreases budget
  {
    var r := Chain(line, pos, budget);
    if !(budget == 0 || pos == |line| || !IsDigit(line[pos])) {
      var next := if pos + 1 < |line| && IsSeparator(line[pos + 1]) then pos + 2 else pos + 1;
      assert r == (Chain(line, next, budget - 1).0 + 1, Chain(line, next, budget - 1).1);
      ChainText(line, next, budget - 1);
      assert |Digits(line[pos..next])| == 1 by {
        if next == pos + 2 {
          assert line[pos..next] == [line[pos]] + [line[pos + 1]];
          DigitsAppend([line[pos]], [line[pos + 1]]);
        } else {
          assert line[pos..next] == [line[pos]];
        }
      }
      assert line[pos..r.1] == line[pos..next] + line[next..r.1];
      DigitsAppend(line[pos..next], line[next..r.1]);
    }
  }

  /** `s` is a match of the card pattern starting at `s.lo`. */
  ghost predicate IsCardMatch(line: string, s: Span)
  {
    s.lo <= s.hi <= |line| &&
    Chain(line, s.lo, MaxCardRepeats).0 >= MinCardRepeats &&
    Chain(line, s.lo, MaxCardRepeats).1 == s.hi
  }

  /**
   * `find_iter` for the card pattern from position `from`: the leftmost
   * position where the run reaches 13 repetitions starts a match, which
   * takes up to 16 repetitions; the search resumes where the match ends.
   */
  function CardCandidates(line: string, from: nat): (spans: seq<Span>)
    requires from <= |line|
    ensures forall k :: 0 <= k < |spans| ==> from <= spans[k].lo <= spans[k].hi <= |line|
    ensures forall a, b :: 0 <= a < b < |spans| ==> spans[a].hi <= spans[b].lo
    decreases |line| - from
  {
    if from == |line| then []
    else
      var r := Chain(line, from, MaxCardRepeats);
      if r.0 >= MinCardRepeats then [Span(from, r.1)] + CardCandidates(line, r.1)
      else CardCandidates(line, from + 1)
  }

  /** Every candidate is a full greedy run of 13 to 16 repetitions. */
  lemma {:induction false} CandidatesAreMatches(line: string, from: nat)
    requires from <= |line|
    ensures forall s :: s in CardCandidates(line, from) ==> IsCardMatch(line, s)
    decreases |line| - from
  {
    if from < |line| {
      var r := Chain(line, from, MaxCardRepeats);
      if r.0 >= MinCardRepeats {
        CandidatesHead(line, from);
        CandidatesAreMatches(line, r.1);
      } else {
        assert CardCandidates(line, from) == CardCandidates(line, from + 1);
        CandidatesAreMatches(line, from + 1);
      }
    }
  }

  lemma CandidatesHead(line: string, from: nat)
    requires from < |line| && Chain(line, from, MaxCardRepeats).0 >= MinCardRepeats
    ensures var r := Chain(line, from, MaxCardRepeats);
      IsCardMatch(line, Span(from, r.1)) &&
      CardCandidates(line, from) == [Span(from, r.1)] + CardCandidates(line, r.1)
  {
  }

  /** `value` of a card match: 13 to 16 digits, separators allowed, starting with a digit. */
  ghost predicate CardShaped(s: string)
  {
    13 <= |Digits(s)| <= 16 && |s| > 0 && IsDigit(s[0]) &&
    forall i :: 0 <= i < |s| ==> IsDigit(s[i]) || IsSeparator(s[i])
  }

  lemma CandidateShape(line: string, s: Span)
    requires IsCardMatch(line, s)
    ensures CardShaped(line[s.lo..s.hi])
  {
    ChainText(line, s.lo, MaxCardRepeats);
  }

  /** The card check applied to a candidate: separators stripped, then Luhn. */
  predicate CardAccepted(line: string, s: Span)
    requires s.lo <= s.hi <= |line|
  {
    LuhnValid(Digits(StripSeparators(line[s.lo..s.hi])))
  }

  /** The candidates that pass the card check, in order. */
  function KeepValid(line: string, spans: seq<Span>): (r: seq<Span>)
    requires Within(line, spans)
    ensures |r| <= |spans|
    ensures forall k :: 0 <= k < |r| ==> r[k] in spans
    ensures Within(line, r)
  {
    if spans == [] then []
    else
      var last := spans[|spans| - 1];
      KeepValid(line, spans[..|spans| - 1]) + (if CardAccepted(line, last) then [last] else [])
  }

  lemma KeepValidStep(line: string, spans: seq<Span>, k: nat)
    requires Within(line, spans) && k < |spans|
    ensures KeepValid(line, spans[..k + 1]) ==
            KeepValid(line, spans[..k]) + (if CardAccepted(line, spans[k]) then [spans[k]] else [])
  {
    assert spans[..k + 1][..k] == spans[..k];
  }

  /** The card matches that become findings. */
  function AcceptedCards(line: string): seq<Span>
  {
    KeepValid(line, CardCandidates(line, 0))
  }

  /**
   * The filter keeps exactly the candidates that pass the card check, in
   * their original order.
   */
  lemma {:induction false} KeepValidExactly(line: string, spans: seq<Span>)
    requires Within(line, spans)
    ensures forall k :: 0 <= k < |KeepValid(line, spans)| ==>
      KeepValid(line, spans)[k] in spans && CardAccepted(line, KeepValid(line, spans)[k])
    ensures forall k :: 0 <= k < |spans| && CardAccepted(line, spans[k]) ==> spans[k] in KeepValid(line, spans)
    ensures Ordered(spans) ==> Ordered(KeepValid(line, spans))
  {
    if spans != [] {
      var n := |spans|;
      var prefix := spans[..n - 1];
      var last := spans[n - 1];
      KeepValidExactly(line, prefix);
      var kept := KeepValid(line, prefix);
      var r := KeepValid(line, spans);
      assert r == kept + (if CardAccepted(line, last) then [last] else []);
      forall k | 0 <= k < |r|
        ensures r[k] in spans && CardAccepted(line, r[k])
      {
        if k < |kept| {
          assert r[k] == kept[k];
        }
      }
      forall k | 0 <= k < n && CardAccepted(line, spans[k])
        ensures spans[k] in r
      {
        if k < n - 1 {
          assert spans[k] == prefix[k];
        }
      }
      if Ordered(spans) {
        assert Ordered(prefix);
        forall a, b | 0 <= a < b < |r|
          ensures r[a].hi <= r[b].lo
        {
          if b == |kept| {
            var i :| 0 <= i < n - 1 && prefix[i] == r[a];
            assert spans[i] == r[a];
          }
        }
      }
    }
  }

  /** Every candidate holds 13 to 16 digits, so the check's upper bound of 19 never rejects one. */
  lemma CandidateDigitsBounded(line: string)
    ensures forall k :: 0 <= k < |CardCandidates(line, 0)| ==>
      var s := CardCandidates(line, 0)[k];
      13 <= |Digits(StripSeparators(line[s.lo..s.hi]))| <= 16
  {
    var cs := CardCandidates(line, 0);
    CandidatesAreMatches(line, 0);
    forall k | 0 <= k < |cs|
      ensures 13 <= |Digits(StripSeparators(line[cs[k].lo..cs[k].hi]))| <= 16
    {
      CandidateShape(line, cs[k]);
      StripKeepsDigits(line[cs[k].lo..cs[k].hi]);
    }
  }

  /** Characters other than digits do not change what the check sees. */
  lemma IgnoresNonDigits(a: string, c: char, b: string)
    requires !IsDigit(c)
    ensures Digits(a + [c] + b) == Digits(a + b)
  {
    DigitsAppend(a + [c], b);
    DigitsAppend(a, [c]);
    DigitsAppend(a, b);
    assert Digits([c]) == [] by {
      assert [c][1..] == [];
    }
  }

  // ---------------------------------------------------------------------------
  // Findings

  function ToFinding(kind: string, line: string, lineIdx: nat, s: Span): Finding
    requires s.lo <= s.hi <= |line|
  {
    Finding(kind, line[s.lo..s.hi], lineIdx + 1, Utf8Len(line[..s.lo]), Utf8Len(line[..s.hi]))
  }

  function Emit(kind: string, line: string, lineIdx: nat, spans: seq<Span>): seq<Finding>
    requires Within(line, spans)
  {
    seq(|spans|, k requires 0 <= k < |spans| => ToFinding(kind, line, lineIdx, spans[k]))
  }

  lemma EmitAppend(kind: string, line: string, lineIdx: nat, spans: seq<Span>, s: Span)
    requires Within(line, spans) && s.lo <= s.hi <= |line|
    ensures Within(line, spans + [s])
    ensures Emit(kind, line, lineIdx, spans + [s]) == Emit(kind, line, lineIdx, spans) + [ToFinding(kind, line, lineIdx, s)]
  {
  }

  /** The findings of line number `lineIdx + 1`: emails, then phones, then cards. */
  function LineFindings(line: string, lineIdx: nat, p: Patterns): seq<Finding>
    requires WellFormed(p)
  {
    Emit(EmailKind, line, lineIdx, p.email(line)) +
    Emit(PhoneKind, line, lineIdx, p.phone(line)) +
    Emit(CardKind, line, lineIdx, AcceptedCards(line))
  }

  /** The findings of a list of lines, the first numbered 1. */
  function LinesFindings(lines: seq<string>, p: Patterns): seq<Finding>
    requires WellFormed(p)
  {
    if lines == [] then []
    else LinesFindings(lines[..|lines| - 1], p) + LineFindings(lines[|lines| - 1], |lines| - 1, p)
  }

  lemma LinesFindingsStep(lines: seq<string>, i: nat, p: Patterns)
    requires WellFormed(p) && i < |lines|
    ensures LinesFindings(lines[..i + 1], p) == LinesFindings(lines[..i], p) + LineFindings(lines[i], i, p)
  {
    assert lines[..i + 1][..i] == lines[..i];
  }

  /** What `detect` finds in a text. */
  function Findings(text: string, p: Patterns): seq<Finding>
    requires WellFormed(p)
  {
    LinesFindings(Lines(text), p)
  }

  /** `detect_email`: pushes one finding per email match. */
  method DetectEmail(line: string, lineIdx: nat, p: Patterns, results: seq<Finding>) returns (out: seq<Finding>)
    requires WellFormed(p)
    ensures out == results + Emit(EmailKind, line, lineIdx, p.email(line))
  {
    out := results;
    var matches := p.email(line);
    for k := 0 to |matches|
      invariant out == results + Emit(EmailKind, line, lineIdx, matches[..k])
    {
      assert matches[..k + 1] == matches[..k] + [matches[k]];
      EmitAppend(EmailKind, line, lineIdx, matches[..k], matches[k]);
      out := out + [ToFinding(EmailKind, line, lineIdx, matches[k])];
    }
    assert matches[..|matches|] == matches;
  }

  /** `detect_phone_number`: pushes one finding per phone match. */
  method DetectPhoneNumber(line: string, lineIdx: nat, p: Patterns, results: seq<Finding>) returns (out: seq<Finding>)
    requires WellFormed(p)
    ensures out == results + Emit(PhoneKind, line, lineIdx, p.phone(line))
  {
    out := results;
    var matches := p.phone(line);
    for k := 0 to |matches|
      invariant out == results + Emit(PhoneKind, line, lineIdx, matches[..k])
    {
      assert matches[..k + 1] == matches[..k] + [matches[k]];
      EmitAppend(PhoneKind, line, lineIdx, matches[..k], matches[k]);
      out := out + [ToFinding(PhoneKind, line, lineIdx, matches[k])];
    }
    assert matches[..|matches|] == matches;
  }

  /** `detect_credit_card`: pushes a finding for each card match whose stripped digits pass the check. */
  method DetectCreditCard(line: string, lineIdx: nat, results: seq<Finding>) returns (out: seq<Finding>)
    ensures out == results + Emit(CardKind, line, lineIdx, AcceptedCards(line))
  {
    var matches := CardCandidates(line, 0);
    out := PushAcceptedCards(line, lineIdx, matches, results);
  }

  /** The loop of `detect_credit_card` over the card matches. */
  method PushAcceptedCards(line: string, lineIdx: nat, matches: seq<Span>, results: seq<Finding>) returns (out: seq<Finding>)
    requires Within(line, matches)
    ensures out == results + Emit(CardKind, line, lineIdx, KeepValid(line, matches))
  {
    out := results;
    for k := 0 to |matches|
      invariant out == results + Emit(CardKind, line, lineIdx, KeepValid(line, matches[..k]))
    {
      var m := matches[k];
      var cardNum := StripSeparators(line[m.lo..m.hi]);
      var ok := IsValidCreditCard(cardNum);
      PushAcceptedCardsStep(line, lineIdx, matches, k);
      if ok {
        out := out + [ToFinding(CardKind, line, lineIdx, m)];
      }
    }
    assert matches[..|matches|] == matches;
  }

  lemma PushAcceptedCardsStep(line: string, lineIdx: nat, matches: seq<Span>, k: nat)
    requires Within(line, matches) && k < |matches|
    ensures Emit(CardKind, line, lineIdx, KeepValid(line, matches[..k + 1])) ==
      Emit(CardKind, line, lineIdx, KeepValid(line, matches[..k])) +
      (if CardAccepted(line, matches[k]) then [ToFinding(CardKind, line, lineIdx, matches[k])] else [])
  {
    KeepValidStep(line, matches, k);
    if CardAccepted(line, matches[k]) {
      EmitAppend(CardKind, line, lineIdx, KeepValid(line, matches[..k]), matches[k]);
    }
  }

  /** One iteration of `detect`'s loop: the three matchers on one line, in order. */
  method DetectLine(line: string, lineIdx: nat, p: Patterns, found: seq<Finding>) returns (out: seq<Finding>)
    requires WellFormed(p)
    ensures out == found + LineFindings(line, lineIdx, p)
  {
    out := DetectEmail(line, lineIdx, p, found);
    out := DetectPhoneNumber(line, lineIdx, p, out);
    out := DetectCreditCard(line, lineIdx, out);
    ConcatAssoc(found, Emit(EmailKind, line, lineIdx, p.email(line)),
      Emit(PhoneKind, line, lineIdx, p.phone(line)), Emit(CardKind, line, lineIdx, AcceptedCards(line)));
  }

  lemma ConcatAssoc<T>(a: seq<T>, b: seq<T>, c: seq<T>, d: seq<T>)
    ensures a + b + c + d == a + (b + c + d)
  {
  }

  /** `detect`: every line in order, three matchers per line; it always succeeds. */
  method Detect(text: string, p: Patterns) returns (r: Result<seq<Finding>, Error>)
    requires WellFormed(p)
    ensures r == Ok(Findings(text, p))
    ensures text == "" ==> r == Ok([])
  {
    var lines := Lines(text);
    var found: seq<Finding> := [];
    for i := 0 to |lines|
      invariant found == LinesFindings(lines[..i], p)
    {
      found := DetectLine(lines[i], i, p, found);
      LinesFindingsStep(lines, i, p);
    }
    assert lines[..|lines|] == lines;
    return Ok(found);
  }

  // ---------------------------------------------------------------------------
  // What the findings satisfy

  /** Position of a kind in the per-line order: emails, phones, cards. */
  function Rank(kind: string): nat
  {
    if kind == EmailKind then 0 else if kind == PhoneKind then 1 else 2
  }

  /**
   * A finding is placed on a line when its byte offsets delimit, inside the
   * line's UTF-8 bytes, exactly the bytes of its value.
   */
  ghost predicate Placed(f: Finding, line: string)
  {
    f.start <= f.end <= Utf8Len(line) && Utf8(f.value) == Utf8(line)[f.start..f.end]
  }

  /** A finding refers to one of the lines (numbered from 1) and is placed on it. */
  ghost predicate PlacedIn(f: Finding, lines: seq<string>)
  {
    1 <= f.line <= |lines| && Placed(f, lines[f.line - 1]) && KnownKind(f.kind)
  }

  predicate KnownKind(kind: string)
  {
    kind == EmailKind || kind == PhoneKind || kind == CardKind
  }

  /** A `credit_card` value: a raw card match whose digits pass the Luhn check. */
  ghost predicate ValidCardValue(f: Finding)
  {
    f.kind == CardKind ==> CardShaped(f.value) && LuhnValid(Digits(f.value))
  }

  lemma EmitPlaced(kind: string, line: string, lineIdx: nat, spans: seq<Span>)
    requires Within(line, spans)
    ensures forall k :: 0 <= k < |spans| ==>
      Emit(kind, line, lineIdx, spans)[k].kind == kind &&
      Emit(kind, line, lineIdx, spans)[k].line == lineIdx + 1 &&
      Placed(Emit(kind, line, lineIdx, spans)[k], line)
  {
    forall k | 0 <= k < |spans|
      ensures Placed(Emit(kind, line, lineIdx, spans)[k], line)
    {
      Utf8Slice(line, spans[k].lo, spans[k].hi);
    }
  }

  /** Ordered, non-overlapping matches give findings whose byte ranges do not overlap. */
  lemma EmitOrdered(kind: string, line: string, lineIdx: nat, spans: seq<Span>)
    requires Within(line, spans) && Ordered(spans)
    ensures forall a, b :: 0 <= a < b < |spans| ==>
      Emit(kind, line, lineIdx, spans)[a].end <= Emit(kind, line, lineIdx, spans)[b].start
  {
    forall a, b | 0 <= a < b < |spans|
      ensures Emit(kind, line, lineIdx, spans)[a].end <= Emit(kind, line, lineIdx, spans)[b].start
    {
      Utf8LenMonotone(line, spans[a].hi, spans[b].lo);
    }
  }

  /** The card findings of a line and where they come from. */
  lemma CardFindingsOfLine(line: string, lineIdx: nat)
    ensures Within(line, AcceptedCards(line)) && Ordered(AcceptedCards(line))
    ensures forall k :: 0 <= k < |AcceptedCards(line)| ==>
      IsCardMatch(line, AcceptedCards(line)[k]) && CardAccepted(line, AcceptedCards(line)[k])
  {
    var cs := CardCandidates(line, 0);
    CandidatesAreMatches(line, 0);
    KeepValidExactly(line, cs);
  }

  /** The card findings of a line hold Luhn-valid card matches. */
  lemma CardEmitValid(line: string, lineIdx: nat)
    ensures Within(line, AcceptedCards(line))
    ensures forall k :: 0 <= k < |AcceptedCards(line)| ==>
      ValidCardValue(Emit(CardKind, line, lineIdx, AcceptedCards(line))[k])
  {
    var cs := AcceptedCards(line);
    CardFindingsOfLine(line, lineIdx);
    forall k | 0 <= k < |cs|
      ensures ValidCardValue(Emit(CardKind, line, lineIdx, cs)[k])
    {
      CandidateShape(line, cs[k]);
      StripKeepsDigits(line[cs[k].lo..cs[k].hi]);
    }
  }

  /** Everything found on one line carries its number, is placed on it, and is of a known kind. */
  lemma LineFindingsPlaced(line: string, lineIdx: nat, p: Patterns)
    requires WellFormed(p)
    ensures forall k :: 0 <= k < |LineFindings(line, lineIdx, p)| ==>
      LineFindings(line, lineIdx, p)[k].line == lineIdx + 1 &&
      Placed(LineFindings(line, lineIdx, p)[k], line) &&
      KnownKind(LineFindings(line, lineIdx, p)[k].kind) &&
      ValidCardValue(LineFindings(line, lineIdx, p)[k])
  {
    var es := p.email(line);
    var ps := p.phone(line);
    var cs := AcceptedCards(line);
    CardEmitValid(line, lineIdx);
    var e := Emit(EmailKind, line, lineIdx, es);
    var ph := Emit(PhoneKind, line, lineIdx, ps);
    var c := Emit(CardKind, line, lineIdx, cs);
    EmitPlaced(EmailKind, line, lineIdx, es);
    EmitPlaced(PhoneKind, line, lineIdx, ps);
    EmitPlaced(CardKind, line, lineIdx, cs);
    var fs := LineFindings(line, lineIdx, p);
    assert fs == e + ph + c;
    forall k | 0 <= k < |fs|
      ensures fs[k].line == lineIdx + 1 && Placed(fs[k], line) && KnownKind(fs[k].kind) && ValidCardValue(fs[k])
    {
      if k < |e| {
        assert fs[k] == e[k];
      } else if k < |e| + |ph| {
        assert fs[k] == ph[k - |e|];
      } else {
        assert fs[k] == c[k - |e| - |ph|];
      }
    }
  }

  /** Within one line: emails, then phones, then cards, each kind left to right without overlap. */
  lemma LineFindingsOrdered(line: string, lineIdx: nat, p: Patterns)
    requires WellFormed(p)
    ensures forall a, b :: 0 <= a < b < |LineFindings(line, lineIdx, p)| ==>
      var fa := LineFindings(line, lineIdx, p)[a];
      var fb := LineFindings(line, lineIdx, p)[b];
      Rank(fa.kind) <= Rank(fb.kind) && (Rank(fa.kind) == Rank(fb.kind) ==> fa.end <= fb.start)
  {
    var es := p.email(line);
    var ps := p.phone(line);
    var cs := AcceptedCards(line);
    CardFindingsOfLine(line, lineIdx);
    var e := Emit(EmailKind, line, lineIdx, es);
    var ph := Emit(PhoneKind, line, lineIdx, ps);
    var c := Emit(CardKind, line, lineIdx, cs);
    EmitPlaced(EmailKind, line, lineIdx, es);
    EmitPlaced(PhoneKind, line, lineIdx, ps);
    EmitPlaced(CardKind, line, lineIdx, cs);
    EmitOrdered(EmailKind, line, lineIdx, es);
    EmitOrdered(PhoneKind, line, lineIdx, ps);
    EmitOrdered(CardKind, line, lineIdx, cs);
    var fs := LineFindings(line, lineIdx, p);
    assert fs == e + ph + c;
    forall a, b | 0 <= a < b < |fs|
      ensures Rank(fs[a].kind) <= Rank(fs[b].kind) &&
              (Rank(fs[a].kind) == Rank(fs[b].kind) ==> fs[a].end <= fs[b].start)
    {
      if b < |e| {
        assert fs[a] == e[a] && fs[b] == e[b];
      } else if b < |e| + |ph| {
        assert fs[b] == ph[b - |e|];
        if a >= |e| {
          assert fs[a] == ph[a - |e|];
        } else {
          assert fs[a] == e[a];
        }
      } else {
        assert fs[b] == c[b - |e| - |ph|];
        if a >= |e| + |ph| {
          assert fs[a] == c[a - |e| - |ph|];
        } else if a >= |e| {
          assert fs[a] == ph[a - |e|];
        } else {
          assert fs[a] == e[a];
        }
      }
    }
  }

  lemma PlacedInLonger(f: Finding, prefix: seq<string>, lines: seq<string>)
    requires PlacedIn(f, prefix) && prefix <= lines
    ensures PlacedIn(f, lines)
  {
    assert lines[f.line - 1] == prefix[f.line - 1];
  }

  /**
   * Every finding of `detect` names a line of the text (from 1) and delimits
   * its value by UTF-8 byte offsets into that line; its kind is one of the three.
   */
  lemma {:induction false} FindingsPlaced(lines: seq<string>, p: Patterns)
    requires WellFormed(p)
    ensures forall k :: 0 <= k < |LinesFindings(lines, p)| ==> PlacedIn(LinesFindings(lines, p)[k], lines)
  {
    if lines != [] {
      var n := |lines|;
      var prefix := lines[..n - 1];
      var before := LinesFindings(prefix, p);
      var here := LineFindings(lines[n - 1], n - 1, p);
      FindingsPlaced(prefix, p);
      assert forall k :: 0 <= k < |here| ==>
        here[k].line == n && Placed(here[k], lines[n - 1]) && KnownKind(here[k].kind) by {
        LineFindingsPlaced(lines[n - 1], n - 1, p);
      }
      assert LinesFindings(lines, p) == before + here;
      AppendPlaced(before, here, lines);
    }
  }

  /** Findings placed in all but the last line, followed by findings placed in the last one. */
  lemma AppendPlaced(before: seq<Finding>, here: seq<Finding>, lines: seq<string>)
    requires lines != []
    requires forall k :: 0 <= k < |before| ==> PlacedIn(before[k], lines[..|lines| - 1])
    requires forall k :: 0 <= k < |here| ==>
      here[k].line == |lines| && Placed(here[k], lines[|lines| - 1]) && KnownKind(here[k].kind)
    ensures forall k :: 0 <= k < |before + here| ==> PlacedIn((before + here)[k], lines)
  {
    forall k | 0 <= k < |before + here|
      ensures PlacedIn((before + here)[k], lines)
    {
      if k < |before| {
        assert (before + here)[k] == before[k];
        PlacedInLonger(before[k], lines[..|lines| - 1], lines);
      } else {
        assert (before + here)[k] == here[k - |before|];
      }
    }
  }

  lemma FindingsLineBound(lines: seq<string>, p: Patterns)
    requires WellFormed(p)
    ensures forall k :: 0 <= k < |LinesFindings(lines, p)| ==> LinesFindings(lines, p)[k].line <= |lines|
  {
    FindingsPlaced(lines, p);
  }

  lemma LineFindingsLine(line: string, lineIdx: nat, p: Patterns)
    requires WellFormed(p)
    ensures forall k :: 0 <= k < |LineFindings(line, lineIdx, p)| ==> LineFindings(line, lineIdx, p)[k].line == lineIdx + 1
  {
    LineFindingsPlaced(line, lineIdx, p);
  }

  /** Output order between two findings: by line, then by kind, then by position. */
  ghost predicate InOrder(fa: Finding, fb: Finding)
  {
    fa.line < fb.line ||
    (fa.line == fb.line && Rank(fa.kind) < Rank(fb.kind)) ||
    (fa.line == fb.line && Rank(fa.kind) == Rank(fb.kind) && fa.end <= fb.start)
  }

  /**
   * Output order: lines in order; within a line emails, then phones, then
   * cards; within one kind on one line, left to right without overlap.
   */
  lemma {:induction false} FindingsOrdered(lines: seq<string>, p: Patterns)
    requires WellFormed(p)
    ensures forall a, b :: 0 <= a < b < |LinesFindings(lines, p)| ==>
      InOrder(LinesFindings(lines, p)[a], LinesFindings(lines, p)[b])
  {
    if lines != [] {
      var n := |lines|;
      var prefix := lines[..n - 1];
      var before := LinesFindings(prefix, p);
      var here := LineFindings(lines[n - 1], n - 1, p);
      FindingsOrdered(prefix, p);
      FindingsLineBound(prefix, p);
      LineFindingsLine(lines[n - 1], n - 1, p);
      LineFindingsOrdered(lines[n - 1], n - 1, p);
      assert LinesFindings(lines, p) == before + here;
      AppendOrdered(before, here, n);
    }
  }

  /** Ordered findings of earlier lines, followed by the ordered findings of line `n`. */
  lemma AppendOrdered(before: seq<Finding>, here: seq<Finding>, n: nat)
    requires forall k :: 0 <= k < |before| ==> before[k].line < n
    requires forall k :: 0 <= k < |here| ==> here[k].line == n
    requires forall a, b :: 0 <= a < b < |before| ==> InOrder(before[a], before[b])
    requires forall a, b :: 0 <= a < b < |here| ==>
      Rank(here[a].kind) <= Rank(here[b].kind) &&
      (Rank(here[a].kind) == Rank(here[b].kind) ==> here[a].end <= here[b].start)
    ensures forall a, b :: 0 <= a < b < |before + here| ==> InOrder((before + here)[a], (before + here)[b])
  {
    var fs := before + here;
    forall a, b | 0 <= a < b < |fs|
      ensures InOrder(fs[a], fs[b])
    {
      if b < |before| {
        assert fs[a] == before[a] && fs[b] == before[b];
      } else if a < |before| {
        assert fs[a] == before[a] && fs[b] == here[b - |before|];
      } else {
        assert fs[a] == here[a - |before|] && fs[b] == here[b - |before|];
      }
    }
  }

  /**
   * A `credit_card` finding's value is the raw match (digits and separators,
   * 13 to 16 digits, possibly a trailing separator) and its digits pass the
   * Luhn check.
   */
  lemma {:induction false} CardFindingsValid(lines: seq<string>, p: Patterns)
    requires WellFormed(p)
    ensures forall k :: 0 <= k < |LinesFindings(lines, p)| ==> ValidCardValue(LinesFindings(lines, p)[k])
  {
    if lines != [] {
      var n := |lines|;
      CardFindingsValid(lines[..n - 1], p);
      LineFindingsPlaced(lines[n - 1], n - 1, p);
      var before := LinesFindings(lines[..n - 1], p);
      var here := LineFindings(lines[n - 1], n - 1, p);
      var fs := LinesFindings(lines, p);
      assert fs == before + here;
      forall k | 0 <= k < |fs|
        ensures ValidCardValue(fs[k])
      {
        if k < |before| {
          assert fs[k] == before[k];
        } else {
          assert fs[k] == here[k - |before|];
        }
      }
    }
  }

  lemma {:induction false} StripAppend(a: string, b: string)
    ensures StripSeparators(a + b) == StripSeparators(a) + StripSeparators(b)
  {
    if a == [] {
      assert a + b == b;
    } else {
      assert (a + b)[1..] == a[1..] + b;
      StripAppend(a[1..], b);
    }
  }

  /** Four digits, no separator: stripping keeps them and the check reads them in order. */
  lemma DigitGroup(g: string)
    requires FourDigits(g)
    ensures StripSeparators(g) == g
    ensures Digits(g) == [g[0] as int - '0' as int, g[1] as int - '0' as int, g[2] as int - '0' as int, g[3] as int - '0' as int]
  {
    assert g[3..][1..] == [];
    assert StripSeparators(g[3..]) == g[3..];
    assert Digits(g[3..]) == [g[3] as int - '0' as int];
    assert g[2..][1..] == g[3..];
    assert StripSeparators(g[2..]) == g[2..];
    assert Digits(g[2..]) == [g[2] as int - '0' as int, g[3] as int - '0' as int];
    assert g[1..][1..] == g[2..];
    assert StripSeparators(g[1..]) == g[1..];
  }

  predicate FourDigits(g: string)
  {
    |g| == 4 && forall i :: 0 <= i < 4 ==> IsDigit(g[i])
  }

  /** A card number written the usual way: four groups of four digits, single spaces between. */
  function Grouped(g1: string, g2: string, g3: string, g4: string): string
  {
    g1 + " " + g2 + " " + g3 + " " + g4
  }

  lemma GroupedChars(g1: string, g2: string, g3: string, g4: string, rest: string)
    requires FourDigits(g1) && FourDigits(g2) && FourDigits(g3) && FourDigits(g4)
    ensures GroupedPrefix(Grouped(g1, g2, g3, g4) + rest)
  {
    var line := Grouped(g1, g2, g3, g4) + rest;
    forall i | 0 <= i < 19
      ensures if i == 4 || i == 9 || i == 14 then line[i] == ' ' else IsDigit(line[i])
    {
      if i < 4 {
        assert line[i] == g1[i];
      } else if i == 4 {
      } else if i < 9 {
        assert line[i] == g2[i - 5];
      } else if i == 9 {
      } else if i < 14 {
        assert line[i] == g3[i - 10];
      } else if i > 14 {
        assert line[i] == g4[i - 15];
      }
    }
  }

  /** One repetition of `\d[ -]?` at `pos`, with the separator taken when `sep` holds. */
  lemma ChainStep(line: string, pos: nat, budget: nat, sep: bool)
    requires pos + 1 < |line| && budget > 0 && IsDigit(line[pos])
    requires sep <==> IsSeparator(line[pos + 1])
    ensures Chain(line, pos, budget) ==
      (Chain(line, if sep then pos + 2 else pos + 1, budget - 1).0 + 1,
       Chain(line, if sep then pos + 2 else pos + 1, budget - 1).1)
  {
  }

  /** The line starts with a grouped number. */
  ghost predicate GroupedPrefix(line: string)
  {
    |line| >= 19 &&
    IsDigit(line[0]) && IsDigit(line[1]) && IsDigit(line[2]) && IsDigit(line[3]) && line[4] == ' ' &&
    IsDigit(line[5]) && IsDigit(line[6]) && IsDigit(line[7]) && IsDigit(line[8]) && line[9] == ' ' &&
    IsDigit(line[10]) && IsDigit(line[11]) && IsDigit(line[12]) && IsDigit(line[13]) && line[14] == ' ' &&
    IsDigit(line[15]) && IsDigit(line[16]) && IsDigit(line[17]) && IsDigit(line[18])
  }

  /**
   * Where the card match over a leading grouped number ends: after the last
   * digit, or one further when a space or hyphen follows it.
   */
  function GroupedEnd(line: string): nat
  {
    if |line| > 19 && IsSeparator(line[19]) then 20 else 19
  }

  lemma GroupedChainLast(line: string)
    requires GroupedPrefix(line)
    ensures Chain(line, 15, 4) == (4, GroupedEnd(line))
  {
    assert Chain(line, 18, 1) == (1, GroupedEnd(line));
    ChainStep(line, 17, 2, false);
    ChainStep(line, 16, 3, false);
    ChainStep(line, 15, 4, false);
  }

  lemma GroupedChainTail(line: string)
    requires GroupedPrefix(line)
    ensures Chain(line, 10, 8) == (8, GroupedEnd(line))
  {
    GroupedChainLast(line);
    ChainStep(line, 13, 5, true);
    ChainStep(line, 12, 6, false);
    ChainStep(line, 11, 7, false);
    ChainStep(line, 10, 8, false);
  }

  lemma GroupedChainMiddle(line: string)
    requires GroupedPrefix(line)
    ensures Chain(line, 5, 12) == (12, GroupedEnd(line))
  {
    GroupedChainTail(line);
    ChainStep(line, 8, 9, true);
    ChainStep(line, 7, 10, false);
    ChainStep(line, 6, 11, false);
    ChainStep(line, 5, 12, false);
  }

  /** The card pattern's run over a leading grouped number: sixteen repetitions. */
  lemma GroupedChain(line: string)
    requires GroupedPrefix(line)
    ensures Chain(line, 0, MaxCardRepeats) == (16, GroupedEnd(line))
  {
    GroupedChainMiddle(line);
    ChainStep(line, 3, 13, true);
    ChainStep(line, 2, 14, false);
    ChainStep(line, 1, 15, false);
    ChainStep(line, 0, 16, false);
  }

  /** Removing the spaces of a grouped number leaves its sixteen digits. */
  lemma GroupedStrip(g1: string, g2: string, g3: string, g4: string)
    requires FourDigits(g1) && FourDigits(g2) && FourDigits(g3) && FourDigits(g4)
    ensures StripSeparators(Grouped(g1, g2, g3, g4)) == g1 + g2 + g3 + g4
  {
    var sp := " ";
    assert StripSeparators(sp) == [];
    assert StripSeparators(g1 + sp + g2) == g1 + g2 by {
      DigitGroup(g1);
      DigitGroup(g2);
      StripAppend(g1, sp);
      StripAppend(g1 + sp, g2);
    }
    assert StripSeparators(g1 + sp + g2 + sp + g3) == g1 + g2 + g3 by {
      DigitGroup(g3);
      StripAppend(g1 + sp + g2, sp);
      StripAppend(g1 + sp + g2 + sp, g3);
    }
    DigitGroup(g4);
    StripAppend(g1 + sp + g2 + sp + g3, sp);
    StripAppend(g1 + sp + g2 + sp + g3 + sp, g4);
  }

  /**
   * A grouped number alone on its line is exactly one card candidate,
   * covering the whole line including its spaces; it is reported if and only
   * if its sixteen digits pass the Luhn check.
   */
  lemma GroupedCard(g1: string, g2: string, g3: string, g4: string)
    requires FourDigits(g1) && FourDigits(g2) && FourDigits(g3) && FourDigits(g4)
    ensures CardCandidates(Grouped(g1, g2, g3, g4), 0) == [Span(0, 19)]
    ensures AcceptedCards(Grouped(g1, g2, g3, g4)) ==
      (if LuhnValid(Digits(g1 + g2 + g3 + g4)) then [Span(0, 19)] else [])
  {
    var line := Grouped(g1, g2, g3, g4);
    assert CardCandidates(line, 0) == [Span(0, 19)] by {
      GroupedChars(g1, g2, g3, g4, []);
      assert line + [] == line;
      GroupedChain(line);
      CandidatesHead(line, 0);
    }
    assert CardAccepted(line, Span(0, 19)) == LuhnValid(Digits(g1 + g2 + g3 + g4)) by {
      assert line[0..19] == line;
      GroupedStrip(g1, g2, g3, g4);
    }
    assert KeepValid(line, [Span(0, 19)]) ==
      (if CardAccepted(line, Span(0, 19)) then [Span(0, 19)] else []) by {
      assert [Span(0, 19)][..0] == [];
    }
  }

  /** `n` ones. */
  function Ones(n: nat): (ds: seq<Digit>)
    ensures |ds| == n && forall k :: 0 <= k < n ==> ds[k] == 1
  {
    if n == 0 then [] else [1] + Ones(n - 1)
  }

  /**
   * The Luhn sum of `n` ones followed by the digit `d`: `d` itself, and each
   * one counted twice when it sits at an odd position from the right.
   */
  lemma {:induction false} OnesThenSum(n: nat, d: Digit)
    ensures LuhnSum(Ones(n) + [d]) == d + n + (n + 1) / 2
  {
    if n == 0 {
      assert Ones(0) + [d] == [d];
    } else {
      var ds := Ones(n) + [d];
      assert ds[0] == 1 && |ds| == n + 1;
      assert ds[1..] == Ones(n - 1) + [d];
      OnesThenSum(n - 1, d);
    }
  }

  lemma OnesAppend(m: nat, n: nat)
    ensures Ones(m) + Ones(n) == Ones(m + n)
  {
  }

  /** The digits of "4111 1111 1111 111d": a four, fourteen ones, then `d`. */
  lemma Digits4111(last: char)
    requires IsDigit(last)
    ensures Digits("4111" + "1111" + "1111" + ("111" + [last])) ==
      [4] + Ones(14) + [(last as int - '0' as int) as Digit]
  {
    var d := (last as int - '0' as int) as Digit;
    var g4 := "111" + [last];
    assert Digits("4111") == [4] + Ones(3) by {
      assert FourDigits("4111");
      DigitGroup("4111");
    }
    assert Digits("1111") == Ones(4) by {
      assert FourDigits("1111");
      DigitGroup("1111");
    }
    assert Digits(g4) == Ones(3) + [d] by {
      assert FourDigits(g4);
      DigitGroup(g4);
    }
    assert Digits("4111" + "1111" + "1111") == [4] + Ones(11) by {
      DigitsAppend("4111", "1111");
      DigitsAppend("4111" + "1111", "1111");
      OnesAppend(3, 4);
      OnesAppend(7, 4);
    }
    DigitsAppend("4111" + "1111" + "1111", g4);
    OnesAppend(11, 3);
  }

  /** The Luhn sum of a four followed by `n` ones and `d`: the four is doubled when `n` is even. */
  lemma LuhnSum4111(n: nat, d: Digit)
    ensures LuhnSum([4] + Ones(n) + [d]) == (if n % 2 == 0 then 8 else 4) + d + n + (n + 1) / 2
  {
    var ds := [4] + Ones(n) + [d];
    assert ds[1..] == Ones(n) + [d];
    OnesThenSum(n, d);
  }

  /** The test number "4111 1111 1111 1111" is reported: its Luhn sum is 30. */
  lemma Card4111Reported()
    ensures AcceptedCards(Grouped("4111", "1111", "1111", "1111")) == [Span(0, 19)]
  {
    var g4 := "1111";
    assert FourDigits("4111") && FourDigits("1111") && FourDigits(g4);
    assert Digits("4111" + "1111" + "1111" + g4) == [4] + Ones(14) + [1] by {
      assert g4 == "111" + ['1'];
      Digits4111('1');
    }
    assert LuhnValid(Digits("4111" + "1111" + "1111" + g4)) by {
      LuhnSum4111(14, 1);
    }
    GroupedCard("4111", "1111", "1111", g4);
  }

  /** "4111 1111 1111 1112" is not reported: its Luhn sum is 31. */
  lemma Card4112Rejected()
    ensures AcceptedCards(Grouped("4111", "1111", "1111", "1112")) == []
  {
    var g4 := "1112";
    assert FourDigits("4111") && FourDigits("1111") && FourDigits(g4);
    assert Digits("4111" + "1111" + "1111" + g4) == [4] + Ones(14) + [2] by {
      assert g4 == "111" + ['2'];
      Digits4111('2');
    }
    assert !LuhnValid(Digits("4111" + "1111" + "1111" + g4)) by {
      LuhnSum4111(14, 2);
    }
    GroupedCard("4111", "1111", "1111", g4);
  }

  /**
   * A grouped number followed by a space keeps that space: the first card
   * candidate of the line ends one character after the last digit.
   */
  lemma TrailingSeparatorKept(g1: string, g2: string, g3: string, g4: string, rest: string)
    requires FourDigits(g1) && FourDigits(g2) && FourDigits(g3) && FourDigits(g4)
    ensures |CardCandidates(Grouped(g1, g2, g3, g4) + " " + rest, 0)| > 0
    ensures CardCandidates(Grouped(g1, g2, g3, g4) + " " + rest, 0)[0] == Span(0, 20)
  {
    var line := Grouped(g1, g2, g3, g4) + " " + rest;
    assert GroupedPrefix(line) && line[19] == ' ' by {
      assert line == Grouped(g1, g2, g3, g4) + (" " + rest);
      GroupedChars(g1, g2, g3, g4, " " + rest);
    }
    GroupedChain(line);
    CandidatesHead(line, 0);
  }

  /** `detect` on a text: its findings satisfy all of the above. */
  lemma DetectFindingsFacts(text: string, p: Patterns)
    requires WellFormed(p)
    ensures forall k :: 0 <= k < |Findings(text, p)| ==> PlacedIn(Findings(text, p)[k], Lines(text))
    ensures forall k :: 0 <= k < |Findings(text, p)| ==> ValidCardValue(Findings(text, p)[k])
  {
    FindingsPlaced(Lines(text), p);
    CardFindingsValid(Lines(text), p);
  }

  const RegexDetectorName := "Regex Detector"

  /** `RegexDetector` as a detector: always available, `detect` never fails. */
  function AsDetector(p: Patterns): (d: Detector)
    requires WellFormed(p)
    ensures d.name == RegexDetectorName && d.available
    ensures forall text :: d.detect(text).Ok?
  {
    Detector(RegexDetectorName, true, text => Ok(Findings(text, p)))
  }
}
