/** Option and Result, the failure-carrying shapes used throughout the model. */
module Wrappers {

  datatype Option<+T> = None | Some(value: T) {
    /** `Option::unwrap_or` */
    function GetOr(default: T): T {
      if Some? then value else default
    }
  }

  datatype Result<+T, +E> = Ok(value: T) | Err(error: E)
}

/**
 * Text utilities the scanner relies on: UTF-8 byte lengths (regex offsets are
 * byte offsets), ASCII lowercasing, decimal rendering of numbers, joining,
 * and `str::lines`.
 */
module Text {

  type byte = x: int | 0 <= x < 0x100

  /** UTF-8 encoding of one Unicode scalar value. */
  function EncodeChar(c: char): (bs: seq<byte>)
    ensures 1 <= |bs| <= 4
    ensures |bs| == 1 <==> c as int < 0x80
  {
    var n := c as int;
    if n < 0x80 then [n]
    else if n < 0x800 then [0xC0 + n / 0x40, 0x80 + n % 0x40]
    else if n < 0x1_0000 then [0xE0 + n / 0x1000, 0x80 + (n / 0x40) % 0x40, 0x80 + n % 0x40]
    else [0xF0 + n / 0x4_0000, 0x80 + (n / 0x1000) % 0x40, 0x80 + (n / 0x40) % 0x40, 0x80 + n % 0x40]
  }

  /** The UTF-8 encoding of a string, the representation Rust's `str` uses. */
  function Utf8(s: string): seq<byte>
  {
    if s == [] then [] else EncodeChar(s[0]) + Utf8(s[1..])
  }

  /** Byte length of a string; a prefix's byte length is a byte offset. */
  function Utf8Len(s: string): nat
  {
    |Utf8(s)|
  }

  lemma {:induction false} Utf8Append(a: string, b: string)
    ensures Utf8(a + b) == Utf8(a) + Utf8(b)
  {
    if a == [] {
      assert a + b == b;
    } else {
      assert (a + b)[1..] == a[1..] + b;
      assert Utf8(a + b) == EncodeChar(a[0]) + Utf8(a[1..] + b);
      Utf8Append(a[1..], b);
      assert EncodeChar(a[0]) + (Utf8(a[1..]) + Utf8(b)) == (EncodeChar(a[0]) + Utf8(a[1..])) + Utf8(b);
    }
  }

  /** Byte offsets grow with character offsets. */
  lemma Utf8LenMonotone(s: string, i: nat, j: nat)
    requires i <= j <= |s|
    ensures Utf8Len(s[..i]) <= Utf8Len(s[..j])
  {
    assert s[..j] == s[..i] + s[i..j];
    Utf8Append(s[..i], s[i..j]);
  }

  /**
   * Slicing characters [lo, hi) and slicing the UTF-8 bytes between the
   * byte offsets of lo and hi give the same text.
   */
  lemma Utf8Slice(s: string, lo: nat, hi: nat)
    requires lo <= hi <= |s|
    ensures Utf8Len(s[..lo]) <= Utf8Len(s[..hi]) <= |Utf8(s)|
    ensures Utf8(s[lo..hi]) == Utf8(s)[Utf8Len(s[..lo])..Utf8Len(s[..hi])]
  {
    assert s[..hi] == s[..lo] + s[lo..hi];
    assert s == s[..hi] + s[hi..];
    Utf8Append(s[..lo], s[lo..hi]);
    Utf8Append(s[..hi], s[hi..]);
    SliceMiddle(Utf8(s[..lo]), Utf8(s[lo..hi]), Utf8(s[hi..]));
  }

  lemma SliceMiddle<T>(a: seq<T>, b: seq<T>, c: seq<T>)
    ensures (a + b + c)[|a|..|a| + |b|] == b
  {
  }

  function LowerChar(c: char): char
  {
    if 'A' <= c <= 'Z' then (c as int - 'A' as int + 'a' as int) as char else c
  }

  /**
   * `str::to_lowercase` restricted to ASCII letters. Membership of the result
   * in a list of ASCII extensions is the same as with full Unicode case
   * mapping: the only non-ASCII letter that lowercases to ASCII is the Kelvin
   * sign, and `k` occurs in none of the extensions.
   */
  function Lower(s: string): (r: string)
    ensures |r| == |s|
    ensures forall i :: 0 <= i < |s| ==> r[i] == LowerChar(s[i])
  {
    seq(|s|, i requires 0 <= i < |s| => LowerChar(s[i]))
  }

  lemma LowerIdempotent(s: string)
    ensures Lower(Lower(s)) == Lower(s)
  {
  }

  /** Text without capital letters is its own lowercase. */
  lemma LowerFixed(s: string)
    requires forall i :: 0 <= i < |s| ==> !('A' <= s[i] <= 'Z')
    ensures Lower(s) == s
  {
  }

  function DigitChar(d: nat): char
    requires d < 10
  {
    "0123456789"[d]
  }

  /** Decimal rendering of a number, as `format!("{}", n)` does. */
  function NatToString(n: nat): (s: string)
    ensures |s| >= 1
    ensures forall i :: 0 <= i < |s| ==> '0' <= s[i] <= '9'
  {
    if n < 10 then [DigitChar(n)] else NatToString(n / 10) + [DigitChar(n % 10)]
  }

  /** `parts.join(sep)` */
  function Join(sep: string, parts: seq<string>): string
  {
    if parts == [] then ""
    else if |parts| == 1 then parts[0]
    else parts[0] + sep + Join(sep, parts[1..])
  }

  /** Index of the first `c` in `s`, or `|s|` when there is none. */
  function IndexOf(s: string, c: char): (i: nat)
    ensures i <= |s|
    ensures i < |s| ==> s[i] == c
    ensures forall j :: 0 <= j < i ==> s[j] != c
  {
    if s == [] then 0
    else if s[0] == c then 0
    else 1 + IndexOf(s[1..], c)
  }

  /** Drops one trailing carriage return. */
  function StripCr(s: string): string
  {
    if |s| > 0 && s[|s| - 1] == '\r' then s[..|s| - 1] else s
  }

  /**
   * `str::lines`: the text is cut after every line feed; a line that ended in
   * a line feed loses it and then one carriage return before it; a final
   * piece without a line feed is kept as it is; nothing follows a final line
   * feed.
   */
  function Lines(t: string): seq<string>
    decreases |t|
  {
    if t == [] then []
    else
      var i := IndexOf(t, '\n');
      if i == |t| then [t] else [StripCr(t[..i])] + Lines(t[i + 1..])
  }

  function Count(s: string, c: char): nat
  {
    if s == [] then 0 else (if s[0] == c then 1 else 0) + Count(s[1..], c)
  }

  lemma {:induction false} CountAppend(a: string, b: string, c: char)
    ensures Count(a + b, c) == Count(a, c) + Count(b, c)
  {
    if a == [] {
      assert a + b == b;
    } else {
      assert (a + b)[1..] == a[1..] + b;
      CountAppend(a[1..], b, c);
    }
  }

  /** No line holds a line feed. */
  lemma {:induction false} LinesHaveNoLineFeed(t: string)
    ensures forall k :: 0 <= k < |Lines(t)| ==> '\n' !in Lines(t)[k]
    decreases |t|
  {
    if t != [] {
      var i := IndexOf(t, '\n');
      if i < |t| {
        var rest := t[i + 1..];
        LinesHaveNoLineFeed(rest);
        var first := StripCr(t[..i]);
        assert forall j :: 0 <= j < |first| ==> first[j] == t[j];
        var ls := Lines(t);
        assert ls == [first] + Lines(rest);
        forall k | 0 <= k < |ls|
          ensures '\n' !in ls[k]
        {
          if k > 0 {
            assert ls[k] == Lines(rest)[k - 1];
          }
        }
      }
    }
  }

  /** One line per line feed, plus one for an unterminated last line. */
  lemma {:induction false} LinesCount(t: string)
    ensures |Lines(t)| == Count(t, '\n') + (if t != [] && t[|t| - 1] != '\n' then 1 else 0)
    decreases |t|
  {
    if t != [] {
      var i := IndexOf(t, '\n');
      if i == |t| {
        NoLineFeedCount(t);
      } else {
        var rest := t[i + 1..];
        assert Lines(t) == [StripCr(t[..i])] + Lines(rest);
        LinesCount(rest);
        CountSplit(t, i, '\n');
        NoLineFeedCount(t[..i]);
        if rest != [] {
          assert t[|t| - 1] == rest[|rest| - 1];
        }
      }
    }
  }

  lemma CountSplit(s: string, i: nat, c: char)
    requires i < |s|
    ensures Count(s, c) == Count(s[..i], c) + (if s[i] == c then 1 else 0) + Count(s[i + 1..], c)
  {
    assert s == s[..i] + ([s[i]] + s[i + 1..]);
    CountAppend(s[..i], [s[i]] + s[i + 1..], c);
    CountAppend([s[i]], s[i + 1..], c);
  }

  lemma {:induction false} NoLineFeedCount(s: string)
    requires forall j :: 0 <= j < |s| ==> s[j] != '\n'
    ensures Count(s, '\n') == 0
  {
    if s != [] {
      NoLineFeedCount(s[1..]);
    }
  }
}

/**
 * The error values that travel through `Box<dyn Error>`: the application's
 * own `AppError` variants, and a bare message (a `String` turned into an
 * error with `into()`).
 */
module Errors {
  import opened Text

  datatype IoErrorKind = NotFound | OtherIo

  datatype Error =
    | IoError(kind: IoErrorKind, message: string)
    | ApiError(message: string)
    | PdfExtractError(message: string)
    | DocxExtractError(message: string)
    | JsonError(message: string)
    | NotImplemented
    | Other(inner: string)
    | Message(text: string)

  /** The `Display` text of an error. */
  function Display(e: Error): string
  {
    match e
    case IoError(_, m) => "IO Error: " + m
    case ApiError(m) => "API Error: " + m
    case PdfExtractError(m) => "PDF Extract Error: " + m
    case DocxExtractError(m) => "DOCX Extract Error: " + m
    case JsonError(m) => "JSON Error: " + m
    case NotImplemented => "Feature not implemented"
    case Other(m) => "Error: " + m
    case Message(m) => m
  }
}

/** The domain types and the detector capability. */
module Models {
  import opened Wrappers
  import opened Errors

  /** `PersonalInformation`; `kind` is the field serialised as `type`. */
  datatype Finding = Finding(kind: string, value: string, line: nat, start: nat, end: nat)

  datatype ScanResult = ScanResult(file: string, findings: seq<Finding>)

  datatype FileInfo = FileInfo(path: string, content: string)

  /**
   * A `PersonalInformationDetector` trait object: its name, whether it is
   * available, and what `detect` returns for each text.
   */
  datatype Detector = Detector(name: string, available: bool, detect: string -> Result<seq<Finding>, Error>)
}
