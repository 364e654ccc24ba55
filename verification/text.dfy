/** Strings as koffr handles them: decimal numbers, cutting, and the order of bytes. */
module Text {

  datatype Option<+T> = None | Some(value: T) {
    predicate IsFailure() {
      None?
    }

    function PropagateFailure<U>(): Option<U>
      requires None?
    {
      None
    }

    function Extract(): T
      requires Some?
    {
      value
    }
  }

  // ------------------------------------------------------------------ characters

  predicate IsDigit(c: char) {
    '0' <= c <= '9'
  }

  predicate IsAlnum(c: char) {
    'a' <= c <= 'z' || 'A' <= c <= 'Z' || IsDigit(c)
  }

  predicate AllDigits(s: string) {
    forall c | c in s :: IsDigit(c)
  }

  function Digit(n: nat): (c: char)
    requires n < 10
    ensures IsDigit(c) && DigitValue(c) == n
  {
    '0' + n as char
  }

  function DigitValue(c: char): (n: nat)
    requires IsDigit(c)
    ensures n < 10
  {
    (c - '0') as nat
  }

  // ------------------------------------------------------------------ printing numbers

  /** Exactly `width` digits, zero-padded: what `%04d` gives for a number that fits. */
  function Pad(width: nat, n: nat): (s: string)
    ensures |s| == width && AllDigits(s)
  {
    if width == 0 then "" else Pad(width - 1, n / 10) + [Digit(n % 10)]
  }

  /** As few digits as possible: what `%d` gives for a number that is not negative. */
  function Dec(n: nat): (s: string)
    ensures |s| > 0 && AllDigits(s)
  {
    if n < 10 then [Digit(n)] else Dec(n / 10) + [Digit(n % 10)]
  }

  function Pow10(width: nat): nat {
    if width == 0 then 1 else 10 * Pow10(width - 1)
  }

  // ------------------------------------------------------------------ reading numbers

  function Number(s: string): nat
    requires AllDigits(s)
  {
    if s == "" then 0 else 10 * Number(s[..|s| - 1]) + DigitValue(s[|s| - 1])
  }

  const MAX_INT: int := 0x7fff_ffff_ffff_ffff
  const MIN_INT: int := -0x8000_0000_0000_0000

  /** Two's complement, 64 bits. */
  function Wrap64(n: int): (w: int)
    ensures MIN_INT <= w <= MAX_INT
    ensures MIN_INT <= n <= MAX_INT ==> w == n
  {
    (n - MIN_INT) % 0x1_0000_0000_0000_0000 + MIN_INT
  }

  predicate IsSign(c: char) {
    c == '+' || c == '-'
  }

  function Unsigned(s: string): string {
    if s != "" && IsSign(s[0]) then s[1..] else s
  }

  /** `strconv.Atoi` on a 64-bit machine: an optional sign, digits, and the range of an int. */
  function Atoi(s: string): (n: Option<int>) {
    var digits := Unsigned(s);
    if digits == "" || !AllDigits(digits) then None
    else
      var value: int := if s[0] == '-' then 0 - Number(digits) else Number(digits);
      if MIN_INT <= value <= MAX_INT then Some(value) else None
  }

  lemma {:induction false} NumberOfPad(width: nat, n: nat)
    requires n < Pow10(width)
    ensures Number(Pad(width, n)) == n
  {
    if width > 0 {
      NumberOfPad(width - 1, n / 10);
      var s := Pad(width, n);
      assert s[..|s| - 1] == Pad(width - 1, n / 10);
    }
  }

  lemma {:induction false} NumberOfDec(n: nat)
    ensures Number(Dec(n)) == n
  {
    var s := Dec(n);
    if n < 10 {
      assert s[..|s| - 1] == "";
    } else {
      NumberOfDec(n / 10);
      assert s[..|s| - 1] == Dec(n / 10);
    }
  }

  /** Printing then reading a number that is not negative gives it back. */
  lemma AtoiOfDec(n: nat)
    requires n <= MAX_INT
    ensures Atoi(Dec(n)) == Some(n)
  {
    NumberOfDec(n);
    assert Dec(n)[0] in Dec(n);
  }

  /** A minus sign is read as one, down to the least number of 64 bits. */
  lemma AtoiOfNegative(n: nat)
    requires n <= -MIN_INT
    ensures Atoi("-" + Dec(n)).Some? && Atoi("-" + Dec(n)).value + n == 0
  {
    NumberOfDec(n);
    assert ("-" + Dec(n))[1..] == Dec(n);
  }

  // ------------------------------------------------------------------ cutting

  function IndexOf(s: string, c: char): (i: int)
    ensures -1 <= i < |s|
    ensures i >= 0 ==> s[i] == c
  {
    if s == "" then -1
    else if s[0] == c then 0
    else
      var later := IndexOf(s[1..], c);
      if later < 0 then -1 else later + 1
  }

  function LastIndexOf(s: string, c: char): (i: int)
    ensures -1 <= i < |s|
    ensures i >= 0 ==> s[i] == c
  {
    if s == "" then -1
    else if s[|s| - 1] == c then |s| - 1
    else LastIndexOf(s[..|s| - 1], c)
  }

  lemma WhatIsFoundIsIn(s: string, c: char)
    ensures IndexOf(s, c) >= 0 ==> c in s
  {
  }

  lemma {:induction false} IndexOfParts(before: string, c: char, after: string)
    requires c !in before
    ensures IndexOf(before + [c] + after, c) == |before|
  {
    if before != "" {
      assert (before + [c] + after)[1..] == before[1..] + [c] + after;
      IndexOfParts(before[1..], c, after);
    }
  }

  lemma {:induction false} LastIndexOfParts(before: string, c: char, after: string)
    requires c !in after
    ensures LastIndexOf(before + [c] + after, c) == |before|
  {
    var s := before + [c] + after;
    if after != "" {
      assert s[..|s| - 1] == before + [c] + after[..|after| - 1];
      LastIndexOfParts(before, c, after[..|after| - 1]);
    }
  }

  lemma {:induction false} NothingBeforeIndex(s: string, c: char)
    ensures IndexOf(s, c) >= 0 ==> forall k | 0 <= k < IndexOf(s, c) :: s[k] != c
  {
    if s != "" && s[0] != c {
      NothingBeforeIndex(s[1..], c);
      forall k | 0 <= k < IndexOf(s, c) ensures s[k] != c {
        assert k > 0 ==> s[k] == s[1..][k - 1];
      }
    }
  }

  lemma {:induction false} NothingAfterLastIndex(s: string, c: char)
    ensures forall k | LastIndexOf(s, c) < k < |s| :: s[k] != c
  {
    if s != "" && s[|s| - 1] != c {
      var front := s[..|s| - 1];
      NothingAfterLastIndex(front, c);
      forall k | LastIndexOf(s, c) < k < |s| ensures s[k] != c {
        assert k < |front| ==> s[k] == front[k];
      }
    }
  }

  function Split(s: string, c: char): (parts: seq<string>)
    ensures parts != []
    decreases |s|
  {
    var i := IndexOf(s, c);
    if i < 0 then [s] else [s[..i]] + Split(s[i + 1..], c)
  }

  lemma NotFound(s: string, c: char)
    requires c !in s
    ensures IndexOf(s, c) == -1
  {
    WhatIsFoundIsIn(s, c);
  }

  lemma WhatIsFoundLastIsIn(s: string, c: char)
    ensures LastIndexOf(s, c) >= 0 ==> c in s
  {
  }

  lemma NotFoundLast(s: string, c: char)
    requires c !in s
    ensures LastIndexOf(s, c) == -1
  {
    WhatIsFoundLastIsIn(s, c);
  }

  lemma SplitParts(a: string, c: char, rest: string)
    requires c !in a
    ensures Split(a, c) == [a]
    ensures Split(a + ([c] + rest), c) == [a] + Split(rest, c)
  {
    NotFound(a, c);
    var s := a + [c] + rest;
    assert a + ([c] + rest) == s;
    IndexOfParts(a, c, rest);
    assert s[..|a|] == a && s[|a| + 1..] == rest;
  }

  // ------------------------------------------------------------------ scanning

  predicate IsSpace(c: char) {
    c == ' ' || c == '\t' || c == '\n' || c == '\r' || c == 11 as char || c == 12 as char
  }

  lemma WhiteSpaceIs(c: char)
    ensures IsSpace(c) <==> c in [' ', '\t', '\n', '\r', 11 as char, 12 as char]
  {
  }

  function TrimSpaceRight(s: string): string {
    if s != "" && IsSpace(s[|s| - 1]) then TrimSpaceRight(s[..|s| - 1]) else s
  }

  function TrimSpaceLeft(s: string): string {
    if s != "" && IsSpace(s[0]) then TrimSpaceLeft(s[1..]) else s
  }

  function TrimSpace(s: string): string {
    TrimSpaceRight(TrimSpaceLeft(s))
  }

  /** Trimming takes the white space around a text away, and nothing of the text itself. */
  lemma {:induction false} TrimmingKeepsTheCore(before: string, core: string, after: string)
    requires forall c | c in before + after :: IsSpace(c)
    requires core != "" && !IsSpace(core[0]) && !IsSpace(core[|core| - 1])
    ensures TrimSpace(before + (core + after)) == core
    decreases |before| + |after|
  {
    var s := before + (core + after);
    if before != "" {
      assert s[1..] == before[1..] + (core + after);
      TrimmingKeepsTheCore(before[1..], core, after);
    } else if after != "" {
      var front := after[..|after| - 1];
      assert after[|after| - 1] in after;
      assert s == core + after && s[..|s| - 1] == core + front;
      TrimmingKeepsTheCore("", core, front);
      assert "" + (core + front) == core + front;
    } else {
      assert s == core;
    }
  }

  /** How many digits a string starts with. */
  function DigitRun(s: string): (n: nat)
    ensures n <= |s| && AllDigits(s[..n])
  {
    if s == "" || !IsDigit(s[0]) then 0
    else
      assert forall c | c in s[..1 + DigitRun(s[1..])] :: c == s[0] || c in s[1..][..DigitRun(s[1..])];
      1 + DigitRun(s[1..])
  }

  lemma {:induction false} RunOfDigits(digits: string, rest: string)
    requires AllDigits(digits) && (rest == "" || !IsDigit(rest[0]))
    ensures DigitRun(digits + rest) == |digits|
  {
    if digits == "" {
      assert digits + rest == rest;
    } else {
      assert (digits + rest)[1..] == digits[1..] + rest;
      RunOfDigits(digits[1..], rest);
    }
  }

  predicate HasSuffix(s: string, suffix: string) {
    |suffix| <= |s| && s[|s| - |suffix|..] == suffix
  }

  /** The next `width` digits, and what follows them. */
  function TakeNumber(s: string, width: nat): Option<(nat, string)> {
    if |s| >= width && AllDigits(s[..width]) then Some((Number(s[..width]), s[width..])) else None
  }

  function TakeChar(s: string, c: char): Option<string> {
    if s != "" && s[0] == c then Some(s[1..]) else None
  }

  lemma TakePadded(width: nat, n: nat, rest: string)
    requires n < Pow10(width)
    ensures TakeNumber(Pad(width, n) + rest, width) == Some((n, rest))
  {
    NumberOfPad(width, n);
    assert (Pad(width, n) + rest)[..width] == Pad(width, n);
  }

  lemma TakeLiteral(c: char, rest: string)
    ensures TakeChar([c] + rest, c) == Some(rest)
  {
  }

  // ------------------------------------------------------------------ the order of bytes

  /** `strings.Compare(a, b) < 0`. */
  predicate Less(a: string, b: string) {
    b != "" && (a == "" || a[0] < b[0] || (a[0] == b[0] && Less(a[1..], b[1..])))
  }

  lemma {:induction false} LessIsTransitive(a: string, b: string, c: string)
    requires Less(a, b) && Less(b, c)
    ensures Less(a, c)
  {
    if a != "" && a[0] == b[0] == c[0] {
      LessIsTransitive(a[1..], b[1..], c[1..]);
    }
  }

  lemma {:induction false} LessIsTotal(a: string, b: string)
    ensures (a == b && !Less(a, b) && !Less(b, a)) || (a != b && Less(a, b) != Less(b, a))
  {
    if a != "" && b != "" {
      LessIsTotal(a[1..], b[1..]);
      if a[0] == b[0] && a != b {
        assert a == [a[0]] + a[1..] && b == [b[0]] + b[1..];
      }
    }
  }

  lemma {:induction false} LessAfterPrefix(prefix: string, a: string, b: string)
    ensures Less(prefix + a, prefix + b) == Less(a, b)
  {
    if prefix == "" {
      assert prefix + a == a && prefix + b == b;
    } else {
      assert (prefix + a)[1..] == prefix[1..] + a && (prefix + b)[1..] == prefix[1..] + b;
      LessAfterPrefix(prefix[1..], a, b);
    }
  }

  /** A smaller number in a field of fixed width decides, whatever comes after it. */
  lemma {:induction false} LessByField(width: nat, a: nat, b: nat, afterA: string, afterB: string)
    requires a < b < Pow10(width)
    ensures Less(Pad(width, a) + afterA, Pad(width, b) + afterB)
  {
    var restA, restB := [Digit(a % 10)] + afterA, [Digit(b % 10)] + afterB;
    assert Pad(width, a) + afterA == Pad(width - 1, a / 10) + restA;
    assert Pad(width, b) + afterB == Pad(width - 1, b / 10) + restB;
    if a / 10 < b / 10 {
      LessByField(width - 1, a / 10, b / 10, restA, restB);
    } else {
      LessAfterPrefix(Pad(width - 1, a / 10), restA, restB);
    }
  }
}
