/**
 The parts of Go's `strings` and `strconv` packages that the modelled code relies on.
 A Go string and a Go []byte are both a Dafny `string` here, one char per byte, so that
 `|s|` is Go's `len(s)` and indexing and slicing mean what they mean in Go.
 */
module GoStrings {

  datatype Option<+T> = None | Some(value: T)

  const MIN_INT64: int := -0x8000_0000_0000_0000
  const MAX_INT64: int := 0x7FFF_FFFF_FFFF_FFFF

  predicate IsInt64(n: int) {
    MIN_INT64 <= n <= MAX_INT64
  }

  /** Two's-complement wrap-around of int64 arithmetic. */
  function Wrap64(n: int): (r: int)
    ensures IsInt64(r)
    ensures IsInt64(n) ==> r == n
    decreases if n > MAX_INT64 then n - MAX_INT64 else if n < MIN_INT64 then MIN_INT64 - n else 0
  {
    if n > MAX_INT64 then Wrap64(n - 0x1_0000_0000_0000_0000)
    else if n < MIN_INT64 then Wrap64(n + 0x1_0000_0000_0000_0000)
    else n
  }

  lemma WrapShift(n: int)
    ensures Wrap64(n + 0x1_0000_0000_0000_0000) == Wrap64(n)
  {
  }

  lemma {:induction false} WrapAdd(a: int, b: int)
    ensures Wrap64(Wrap64(a) + b) == Wrap64(a + b)
    decreases if a > MAX_INT64 then a - MAX_INT64 else if a < MIN_INT64 then MIN_INT64 - a else 0
  {
    if a > MAX_INT64 {
      WrapAdd(a - 0x1_0000_0000_0000_0000, b);
      WrapShift(a - 0x1_0000_0000_0000_0000 + b);
    } else if a < MIN_INT64 {
      WrapAdd(a + 0x1_0000_0000_0000_0000, b);
      WrapShift(a + b);
    }
  }

  // ---------------------------------------------------------------- searching

  predicate HasPrefix(s: string, prefix: string) {
    prefix <= s
  }

  predicate HasSuffix(s: string, suffix: string) {
    |suffix| <= |s| && s[|s| - |suffix|..] == suffix
  }

  lemma SuffixEnd(s: string, suffix: string)
    ensures HasSuffix(s, suffix) && suffix != "" ==> s[|s| - 1] == suffix[|suffix| - 1]
  {
    if HasSuffix(s, suffix) && suffix != "" {
      assert s[|s| - |suffix|..][|suffix| - 1] == s[|s| - 1];
    }
  }

  function TrimPrefix(s: string, prefix: string): string {
    if HasPrefix(s, prefix) then s[|prefix|..] else s
  }

  function TrimSuffix(s: string, suffix: string): string {
    if HasSuffix(s, suffix) then s[..|s| - |suffix|] else s
  }

  /** True when `sub` occurs in `s` at position `i`. */
  predicate OccursAt(s: string, sub: string, i: int) {
    0 <= i <= |s| - |sub| && s[i..i + |sub|] == sub
  }

  predicate Contains(s: string, sub: string) {
    exists i | 0 <= i <= |s| :: OccursAt(s, sub, i)
  }

  /** strings.Index: the first occurrence, or -1. */
  function Index(s: string, sub: string): (i: int)
    ensures i >= 0 <==> Contains(s, sub)
    ensures i >= 0 ==> OccursAt(s, sub, i)
    ensures forall j :: 0 <= j < i ==> !OccursAt(s, sub, j)
    ensures i >= -1
  {
    if Contains(s, sub) then FirstFrom(s, sub, 0) else -1
  }

  function FirstFrom(s: string, sub: string, from: nat): (i: nat)
    requires exists k :: from <= k && OccursAt(s, sub, k)
    ensures from <= i && OccursAt(s, sub, i)
    ensures forall j :: from <= j < i ==> !OccursAt(s, sub, j)
    decreases |s| - from
  {
    if OccursAt(s, sub, from) then from else FirstFrom(s, sub, from + 1)
  }

  /** strings.IndexByte: the first position of `c`, or -1. */
  function IndexByte(s: string, c: char): (i: int)
    ensures -1 <= i < |s|
    ensures i >= 0 ==> s[i] == c && forall k :: 0 <= k < i ==> s[k] != c
    ensures i < 0 ==> forall k :: 0 <= k < |s| ==> s[k] != c
  {
    IndexByteFrom(s, c, 0)
  }

  function IndexByteFrom(s: string, c: char, from: nat): (i: int)
    requires from <= |s|
    ensures i == -1 || from <= i < |s|
    ensures i >= 0 ==> s[i] == c && forall k :: from <= k < i ==> s[k] != c
    ensures i < 0 ==> forall k :: from <= k < |s| ==> s[k] != c
    decreases |s| - from
  {
    if from == |s| then -1 else if s[from] == c then from else IndexByteFrom(s, c, from + 1)
  }

  /** Cutting at the first separator gives back the two sides. */
  lemma CutAt(pre: string, c: char, post: string)
    requires c !in pre
    ensures var s := pre + [c] + post;
            IndexByte(s, c) == |pre| && s[..|pre|] == pre && s[|pre| + 1..] == post
  {
    var s := pre + [c] + post;
    assert s[|pre|] == c;
    assert forall k :: 0 <= k < |pre| ==> s[k] == pre[k];
  }

  // ---------------------------------------------------------------- splitting

  /** strings.Split with a one-byte separator. */
  function Split(s: string, sep: char): (parts: seq<string>)
    ensures |parts| >= 1
    ensures forall p :: p in parts ==> sep !in p
    decreases |s|
  {
    var i := IndexByte(s, sep);
    if i < 0 then [s] else [s[..i]] + Split(s[i + 1..], sep)
  }

  /** strings.SplitN with a one-byte separator and n >= 1. */
  function SplitN(s: string, sep: char, n: nat): (parts: seq<string>)
    requires n >= 1
    ensures 1 <= |parts| <= n
    decreases |s|
  {
    var i := IndexByte(s, sep);
    if n == 1 || i < 0 then [s] else [s[..i]] + SplitN(s[i + 1..], sep, n - 1)
  }

  function Join(parts: seq<string>, sep: string): string {
    if parts == [] then ""
    else if |parts| == 1 then parts[0]
    else parts[0] + sep + Join(parts[1..], sep)
  }

  lemma SplitFirst(head: string, sep: char, tail: string)
    requires sep !in head
    ensures Split(head + [sep] + tail, sep) == [head] + Split(tail, sep)
  {
    CutAt(head, sep, tail);
  }

  lemma SplitLast(s: string, sep: char)
    requires sep !in s
    ensures Split(s, sep) == [s]
  {
  }

  lemma {:induction false} SplitOfJoin(parts: seq<string>, sep: char)
    requires parts != []
    requires forall p :: p in parts ==> sep !in p
    ensures Split(Join(parts, [sep]), sep) == parts
  {
    if |parts| == 1 {
      assert parts[0] in parts;
      assert parts == [parts[0]];
    } else {
      assert parts[0] in parts;
      var rest := Join(parts[1..], [sep]);
      assert Join(parts, [sep]) == parts[0] + [sep] + rest;
      CutAt(parts[0], sep, rest);
      SplitOfJoin(parts[1..], sep);
    }
  }

  lemma {:induction false} JoinOfSplitN(s: string, sep: char, n: nat)
    requires n >= 1
    ensures Join(SplitN(s, sep, n), [sep]) == s
    decreases n
  {
    var i := IndexByte(s, sep);
    if n > 1 && i >= 0 {
      JoinOfSplitN(s[i + 1..], sep, n - 1);
      assert s == s[..i] + [sep] + s[i + 1..];
      assert SplitN(s, sep, n)[1..] == SplitN(s[i + 1..], sep, n - 1);
    }
  }

  lemma SplitNStep(head: string, sep: char, rest: string, n: nat)
    requires n >= 2 && sep !in head
    ensures SplitN(head + [sep] + rest, sep, n) == [head] + SplitN(rest, sep, n - 1)
  {
    CutAt(head, sep, rest);
  }

  /** The given parts, each followed by the separator, and then the rest. */
  function Prepend(parts: seq<string>, sep: char, rest: string): string {
    if parts == [] then rest else parts[0] + [sep] + Prepend(parts[1..], sep, rest)
  }

  /** The same for a Split without a limit. */
  lemma {:induction false} SplitOfPrepend(parts: seq<string>, sep: char, rest: string)
    requires forall i :: 0 <= i < |parts| ==> sep !in parts[i]
    ensures Split(Prepend(parts, sep, rest), sep) == parts + Split(rest, sep)
  {
    var more := Split(rest, sep);
    if parts == [] {
      assert parts + more == more;
    } else {
      var tail := Prepend(parts[1..], sep, rest);
      SplitOfPrepend(parts[1..], sep, rest);
      CutAt(parts[0], sep, tail);
      ConsConcat(parts, more);
    }
  }

  /** A SplitN with room for all parts gives them all back. */
  lemma {:induction false} SplitNOfJoin(parts: seq<string>, sep: char, n: nat)
    requires 0 < |parts| <= n
    requires forall p :: p in parts ==> sep !in p
    ensures SplitN(Join(parts, [sep]), sep, n) == parts
    decreases |parts|
  {
    assert parts[0] in parts;
    if |parts| == 1 {
      assert parts == [parts[0]];
    } else {
      var rest := Join(parts[1..], [sep]);
      assert Join(parts, [sep]) == parts[0] + [sep] + rest;
      SplitNOfJoin(parts[1..], sep, n - 1);
      SplitNStep(parts[0], sep, rest, n);
      assert parts == [parts[0]] + parts[1..];
    }
  }

  lemma {:induction false} JoinIsPrepend(parts: seq<string>, sep: char, last: string)
    ensures Join(parts + [last], [sep]) == Prepend(parts, sep, last)
  {
    if parts == [] {
      assert parts + [last] == [last];
    } else {
      JoinIsPrepend(parts[1..], sep, last);
      ConsConcat(parts, [last]);
      assert (parts + [last])[1..] == parts[1..] + [last];
    }
  }

  lemma {:induction false} PrependConcat(a: seq<string>, b: seq<string>, sep: char, rest: string)
    ensures Prepend(a + b, sep, rest) == Prepend(a, sep, Prepend(b, sep, rest))
  {
    if a == [] {
      assert a + b == b;
    } else {
      PrependConcat(a[1..], b, sep, rest);
      ConsConcat(a, b);
      assert (a + b)[1..] == a[1..] + b;
    }
  }

  lemma ConsConcat<T>(a: seq<T>, b: seq<T>)
    requires a != []
    ensures a + b == [a[0]] + (a[1..] + b)
  {
  }

  /** SplitN cuts off separator-free leading parts one by one and then splits the rest. */
  lemma {:induction false} SplitNOfPrepend(parts: seq<string>, sep: char, rest: string, n: nat)
    requires |parts| < n
    requires forall i :: 0 <= i < |parts| ==> sep !in parts[i]
    ensures SplitN(Prepend(parts, sep, rest), sep, n) == parts + SplitN(rest, sep, n - |parts|)
    decreases n
  {
    hide SplitN;
    var more := SplitN(rest, sep, n - |parts|);
    if parts == [] {
      assert parts + more == more;
    } else {
      SplitNOfPrepend(parts[1..], sep, rest, n - 1);
      SplitNStep(parts[0], sep, Prepend(parts[1..], sep, rest), n);
      ConsConcat(parts, more);
    }
  }

  /** How the first `i + 1` elements extend the first `i`. */
  lemma TakeStep<T>(s: seq<T>, i: nat)
    requires i < |s|
    ensures s[..i + 1][..i] == s[..i] && s[..i + 1][i] == s[i]
    ensures s[..i + 1] == s[..i] + [s[i]]
  {
  }

  lemma InitOfSnoc<T>(s: seq<T>, x: T)
    ensures (s + [x])[..|s|] == s && (s + [x])[|s|] == x
  {
  }

  lemma ConcatAssoc<T>(a: seq<T>, b: seq<T>, c: seq<T>)
    ensures (a + b) + c == a + (b + c)
  {
  }

  lemma SnocOf<T>(s: seq<T>)
    requires s != []
    ensures s == s[..|s| - 1] + [s[|s| - 1]]
  {
  }

  /** What holds of all elements holds of the last one and of those before it. */
  lemma InitAndLast<T>(s: seq<T>)
    requires s != []
    ensures forall x :: x in s <==> x in s[..|s| - 1] || x == s[|s| - 1]
  {
    assert s == s[..|s| - 1] + [s[|s| - 1]];
  }

  // ----------------------------------------------------------------- trimming

  predicate IsAsciiSpace(c: char) {
    c == ' ' || c == '\t' || c == '\n' || c == '\r'
  }

  /** textproto.TrimString: strips blanks, tabs and line ends at both ends. */
  function TrimString(s: string): (t: string)
    ensures |t| <= |s|
    ensures t != "" ==> !IsAsciiSpace(t[0]) && !IsAsciiSpace(t[|t| - 1])
    decreases |s|
  {
    if s != "" && IsAsciiSpace(s[0]) then TrimString(s[1..])
    else if s != "" && IsAsciiSpace(s[|s| - 1]) then TrimString(s[..|s| - 1])
    else s
  }

  /** Length of the UTF-8 encoded white-space character `s` starts with, or 0. */
  function LeadingSpace(s: string): (k: nat)
    ensures k <= |s|
  {
    if |s| >= 1 && ('\t' <= s[0] <= '\r' || s[0] == ' ') then 1
    else if |s| >= 2 && IsSpace2(s[..2]) then 2
    else if |s| >= 3 && IsSpace3(s[..3]) then 3
    else 0
  }

  /** Length of the UTF-8 encoded white-space character `s` ends with, or 0. */
  function TrailingSpace(s: string): (k: nat)
    ensures k <= |s|
  {
    if |s| >= 1 && ('\t' <= s[|s| - 1] <= '\r' || s[|s| - 1] == ' ') then 1
    else if |s| >= 2 && IsSpace2(s[|s| - 2..]) then 2
    else if |s| >= 3 && IsSpace3(s[|s| - 3..]) then 3
    else 0
  }

  // U+0085 and U+00A0
  predicate IsSpace2(s: string)
    requires |s| == 2
  {
    s[0] == '\U{C2}' && (s[1] == '\U{85}' || s[1] == '\U{A0}')
  }

  // U+1680, U+2000 to U+200A, U+2028, U+2029, U+202F, U+205F and U+3000
  predicate IsSpace3(s: string)
    requires |s| == 3
  {
    || (s[0] == '\U{E1}' && s[1] == '\U{9A}' && s[2] == '\U{80}')
    || (s[0] == '\U{E2}' && s[1] == '\U{80}' &&
        ('\U{80}' <= s[2] <= '\U{8A}' || s[2] == '\U{A8}' || s[2] == '\U{A9}' || s[2] == '\U{AF}'))
    || (s[0] == '\U{E2}' && s[1] == '\U{81}' && s[2] == '\U{9F}')
    || (s[0] == '\U{E3}' && s[1] == '\U{80}' && s[2] == '\U{80}')
  }

  /** strings.TrimSpace: strips Unicode white space at both ends. */
  function TrimSpace(s: string): (t: string)
    ensures |t| <= |s|
    decreases |s|
  {
    var lead := LeadingSpace(s);
    if lead > 0 then TrimSpace(s[lead..])
    else
      var trail := TrailingSpace(s);
      if trail > 0 then TrimSpace(s[..|s| - trail]) else s
  }

  predicate IsGraphic(c: char) {
    '!' <= c <= '~'
  }

  lemma NoSpaceAtGraphic(s: string)
    requires s != ""
    ensures IsGraphic(s[0]) ==> LeadingSpace(s) == 0
    ensures IsGraphic(s[|s| - 1]) ==> TrailingSpace(s) == 0
  {
  }

  /** Text that begins and ends with graphic ASCII bytes is already trimmed. */
  lemma TrimSpaceOfGraphic(s: string)
    requires s != "" ==> IsGraphic(s[0]) && IsGraphic(s[|s| - 1])
    ensures TrimSpace(s) == s
  {
    if s != "" {
      NoSpaceAtGraphic(s);
      hide LeadingSpace, TrailingSpace;
    }
  }

  // ----------------------------------------------------------------- numbers

  predicate IsDigit(c: char) {
    '0' <= c <= '9'
  }

  predicate AllDigits(s: string) {
    forall i :: 0 <= i < |s| ==> IsDigit(s[i])
  }

  function DigitOf(d: nat): (c: char)
    requires d < 10
    ensures IsDigit(c) && c as int - '0' as int == d
  {
    ('0' as int + d) as char
  }

  /** Decimal digits of a natural number, as fmt's %d and strconv.Itoa print it. */
  function Utoa(n: nat): string {
    if n < 10 then [DigitOf(n)] else Utoa(n / 10) + [DigitOf(n % 10)]
  }

  lemma {:induction false} UtoaIsDigits(n: nat)
    ensures Utoa(n) != "" && AllDigits(Utoa(n))
  {
    if n >= 10 {
      UtoaIsDigits(n / 10);
    }
  }

  function Itoa(n: int): string {
    if n < 0 then "-" + Utoa(-n) else Utoa(n)
  }

  function DigitsValue(s: string): (v: int)
    requires AllDigits(s)
    ensures v >= 0
  {
    if s == "" then 0
    else 10 * DigitsValue(s[..|s| - 1]) + (s[|s| - 1] as int - '0' as int)
  }

  /** strconv.ParseInt(s, 10, 64); None stands for a returned error. */
  function ParseInt(s: string): (r: Option<int>)
    ensures r.Some? ==> IsInt64(r.value)
  {
    var neg := s != "" && s[0] == '-';
    var digits := if neg || (s != "" && s[0] == '+') then s[1..] else s;
    if digits == "" || !AllDigits(digits) then None
    else
      var v: int := if neg then -DigitsValue(digits) else DigitsValue(digits);
      if IsInt64(v) then Some(v) else None
  }

  lemma {:induction false} DigitsValueOfUtoa(n: nat)
    ensures Utoa(n) != "" && AllDigits(Utoa(n)) && DigitsValue(Utoa(n)) == n
  {
    UtoaIsDigits(n);
    if n >= 10 {
      DigitsValueOfUtoa(n / 10);
      assert Utoa(n)[..|Utoa(n)| - 1] == Utoa(n / 10);
    } else {
      assert DigitsValue([]) == 0;
      assert Utoa(n)[..0] == [];
    }
  }

  lemma ParseIntOfDigits(digits: string)
    requires digits != "" && AllDigits(digits)
    ensures ParseInt(digits) == if IsInt64(DigitsValue(digits)) then Some(DigitsValue(digits)) else None
    ensures ParseInt("-" + digits) == if IsInt64(-DigitsValue(digits)) then Some(-DigitsValue(digits)) else None
  {
    hide DigitsValue;
    assert IsDigit(digits[0]);
    assert ("-" + digits)[1..] == digits;
  }

  lemma ParseIntOfItoa(n: int)
    requires IsInt64(n)
    ensures ParseInt(Itoa(n)) == Some(n)
  {
    hide ParseInt, Utoa, DigitsValue;
    var size: nat := if n < 0 then -n else n;
    DigitsValueOfUtoa(size);
    ParseIntOfDigits(Utoa(size));
  }

  lemma UtoaInjective(a: nat, b: nat)
    requires Utoa(a) == Utoa(b)
    ensures a == b
  {
    DigitsValueOfUtoa(a);
    DigitsValueOfUtoa(b);
  }
}
