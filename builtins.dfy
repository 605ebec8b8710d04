/**
 The pieces of the Python runtime that the EOVSA reader relies on, modelled on
 strings and sequences: `os.path.split` (the tail it returns), `str.split` with a
 one-character separator, clamped slicing `s[i:j]`, `int(text)` on a string, and
 the reversing slice `s[::-1]`.
 */
module Builtins {

  datatype Option<+T> = None | Some(value: T)

  // ---------------------------------------------------------------------------
  // os.path.split (POSIX): the tail is everything after the last '/'
  // ---------------------------------------------------------------------------

  /** The second component of `os.path.split(path)`: a tail that holds no '/'. */
  function BaseName(path: string): (tail: string)
    ensures '/' !in tail
  {
    if path == [] then []
    else if path[|path| - 1] == '/' then []
    else BaseName(path[..|path| - 1]) + [path[|path| - 1]]
  }

  /** The tail is the longest '/'-free suffix: a '/' stands just before it unless it is the whole path. */
  lemma {:induction false} BaseNameIsSuffix(path: string)
    ensures var tail := BaseName(path);
            && |tail| <= |path| && tail == path[|path| - |tail|..]
            && (|tail| < |path| ==> path[|path| - |tail| - 1] == '/')
  {
    if path != [] && path[|path| - 1] != '/' {
      var init := path[..|path| - 1];
      BaseNameIsSuffix(init);
      var t := BaseName(init);
      var c := path[|path| - 1];
      assert BaseName(path) == t + [c];
      assert t == init[|init| - |t|..];
      assert path == init + [c];
      assert init[|init| - |t|..] + [c] == path[|path| - |t| - 1..];
      if |t| < |init| {
        assert path[|path| - |t| - 2] == init[|init| - |t| - 1];
      }
    }
  }

  /** A path without separators is its own tail. */
  lemma {:induction false} BaseNameOfPlainName(name: string)
    requires '/' !in name
    ensures BaseName(name) == name
  {
    if name != [] {
      var init := name[..|name| - 1];
      assert forall i :: 0 <= i < |init| ==> init[i] == name[i];
      BaseNameOfPlainName(init);
      assert init + [name[|name| - 1]] == name;
    }
  }

  /** Putting any directory in front of a path does not change its tail. */
  lemma {:induction false} BaseNameIgnoresDirectory(dir: string, path: string)
    ensures BaseName(dir + "/" + path) == BaseName(path)
  {
    var full := dir + "/" + path;
    if path == [] {
      assert full[|full| - 1] == '/';
    } else {
      assert full[|full| - 1] == path[|path| - 1];
      assert full[..|full| - 1] == dir + "/" + path[..|path| - 1];
      if path[|path| - 1] != '/' {
        BaseNameIgnoresDirectory(dir, path[..|path| - 1]);
      }
    }
  }

  // ---------------------------------------------------------------------------
  // str.split(sep) with a one-character separator, and its inverse sep.join
  // ---------------------------------------------------------------------------

  /** `sep.join(parts)`. */
  function Join(parts: seq<string>, sep: char): (s: string)
    requires |parts| > 0
    decreases |parts|
  {
    if |parts| == 1 then parts[0] else parts[0] + [sep] + Join(parts[1..], sep)
  }

  /** `s.split(sep)`: the maximal separator-free fields of `s`, in order. */
  function Split(s: string, sep: char): (fields: seq<string>)
    ensures |fields| > 0
    ensures forall i :: 0 <= i < |fields| ==> sep !in fields[i]
  {
    if s == [] then [[]]
    else
      var rest := Split(s[1..], sep);
      if s[0] == sep then [[]] + rest
      else
        var fields := [[s[0]] + rest[0]] + rest[1..];
        assert fields[1..] == rest[1..];
        fields
  }

  /** Joining the fields with the separator gives the string back. */
  lemma {:induction false} JoinSplit(s: string, sep: char)
    ensures Join(Split(s, sep), sep) == s
  {
    if s != [] {
      var t := s[1..];
      JoinSplit(t, sep);
      var rest := Split(t, sep);
      assert s == [s[0]] + t;
      if s[0] == sep {
        SplitAfterSeparator(t, sep);
      } else {
        SplitAfterChar(s[0], t, sep);
        var fields := [[s[0]] + rest[0]] + rest[1..];
        assert fields[1..] == rest[1..];
        if |rest| > 1 {
          assert Join(rest, sep) == rest[0] + [sep] + Join(rest[1..], sep);
        }
      }
    }
  }

  lemma SplitAfterSeparator(t: string, sep: char)
    ensures Split([sep] + t, sep) == [[]] + Split(t, sep)
  {
    assert ([sep] + t)[1..] == t;
  }

  lemma SplitAfterChar(c: char, t: string, sep: char)
    requires c != sep
    ensures Split([c] + t, sep) == [[c] + Split(t, sep)[0]] + Split(t, sep)[1..]
  {
    assert ([c] + t)[1..] == t;
  }

  /** A string without the separator is one field. */
  lemma {:induction false} SplitOfPlain(a: string, sep: char)
    requires sep !in a
    ensures Split(a, sep) == [a]
  {
    if a != [] {
      SplitOfPlain(a[1..], sep);
      SplitAfterChar(a[0], a[1..], sep);
      assert [a[0]] + a[1..] == a;
    }
  }

  /** A separator-free prefix followed by the separator is the first field. */
  lemma {:induction false} SplitOfPrefix(a: string, t: string, sep: char)
    requires sep !in a
    ensures Split(a + [sep] + t, sep) == [a] + Split(t, sep)
  {
    if a == [] {
      assert a + [sep] + t == [sep] + t;
      SplitAfterSeparator(t, sep);
    } else {
      var rest := a[1..];
      SplitOfPrefix(rest, t, sep);
      assert a + [sep] + t == [a[0]] + (rest + [sep] + t);
      SplitAfterChar(a[0], rest + [sep] + t, sep);
      assert [a[0]] + rest == a;
    }
  }

  /** Splitting a joined list of separator-free fields gives the fields back. */
  lemma {:induction false} SplitJoin(parts: seq<string>, sep: char)
    requires |parts| > 0
    requires forall i :: 0 <= i < |parts| ==> sep !in parts[i]
    ensures Split(Join(parts, sep), sep) == parts
    decreases |parts|
  {
    if |parts| == 1 {
      SplitOfPlain(parts[0], sep);
    } else {
      SplitJoin(parts[1..], sep);
      SplitOfPrefix(parts[0], Join(parts[1..], sep), sep);
      assert [parts[0]] + parts[1..] == parts;
    }
  }

  // ---------------------------------------------------------------------------
  // Clamped slicing s[lo:hi] for non-negative bounds
  // ---------------------------------------------------------------------------

  /** `s[lo:hi]`: bounds past the end are clamped to the length, as Python does. */
  function Slice(s: string, lo: nat, hi: nat): (r: string)
    requires lo <= hi
    ensures |r| == (if hi <= |s| then hi - lo else if lo <= |s| then |s| - lo else 0)
    ensures forall k {:trigger r[k]} :: 0 <= k < |r| ==> r[k] == s[lo + k]
  {
    if hi <= |s| then s[lo..hi] else if lo <= |s| then s[lo..] else []
  }

  /** `s[lo:]`. */
  function SliceFrom(s: string, lo: nat): (r: string)
    ensures |r| == (if lo <= |s| then |s| - lo else 0)
    ensures forall k {:trigger r[k]} :: 0 <= k < |r| ==> r[k] == s[lo + k]
  {
    if lo <= |s| then s[lo..] else []
  }

  // ---------------------------------------------------------------------------
  // int(text) on a str, base 10
  // ---------------------------------------------------------------------------

  /**
   The ASCII white space `int()` skips around its digits: space, tab, line feed,
   vertical tab, form feed and carriage return. The separators '\x1c'-'\x1f',
   which `str.strip()` would drop, are not among them.
   */
  predicate IsSpace(c: char) {
    c == ' ' || c == '\t' || c == '\n' || c == '\r' || c == '\U{0B}' || c == '\U{0C}'
  }

  predicate IsDigit(c: char) {
    '0' <= c <= '9'
  }

  function DigitOf(c: char): (d: nat)
    requires IsDigit(c)
    ensures d < 10
  {
    c as int - '0' as int
  }

  /** The left strip `int()` makes: leading white space dropped. */
  function StripLeft(s: string): string {
    if s != [] && IsSpace(s[0]) then StripLeft(s[1..]) else s
  }

  /** The right strip `int()` makes: trailing white space dropped. */
  function StripRight(s: string): string {
    if s != [] && IsSpace(s[|s| - 1]) then StripRight(s[..|s| - 1]) else s
  }

  /** The left strip drops exactly the leading white space: what is left is a suffix that does not start with it. */
  lemma {:induction false} StripLeftSpec(s: string)
    ensures var r := StripLeft(s);
            && |r| <= |s| && r == s[|s| - |r|..]
            && (r == [] || !IsSpace(r[0]))
            && forall i :: 0 <= i < |s| - |r| ==> IsSpace(s[i])
  {
    if s != [] && IsSpace(s[0]) {
      var t := s[1..];
      StripLeftSpec(t);
      var r := StripLeft(t);
      assert StripLeft(s) == r;
      assert t[|t| - |r|..] == s[|s| - |r|..];
      forall i | 0 <= i < |s| - |r| ensures IsSpace(s[i]) {
        if i > 0 {
          assert s[i] == t[i - 1];
        }
      }
    }
  }

  /** The right strip drops exactly the trailing white space: what is left is a prefix that does not end with it. */
  lemma {:induction false} StripRightSpec(s: string)
    ensures var r := StripRight(s);
            && |r| <= |s| && r == s[..|r|]
            && (r == [] || !IsSpace(r[|r| - 1]))
            && forall i :: |r| <= i < |s| ==> IsSpace(s[i])
  {
    if s != [] && IsSpace(s[|s| - 1]) {
      var t := s[..|s| - 1];
      StripRightSpec(t);
      var r := StripRight(t);
      assert StripRight(s) == r;
      assert t[..|r|] == s[..|r|];
      forall i | |r| <= i < |s| ensures IsSpace(s[i]) {
        if i < |s| - 1 {
          assert s[i] == t[i];
        }
      }
    }
  }

  /**
   The digit part `int()` accepts: decimal digits, where a single underscore may
   stand between two digits.
   */
  predicate IsDigitGroup(s: string) {
    && |s| > 0 && IsDigit(s[0]) && IsDigit(s[|s| - 1])
    && (forall i :: 0 <= i < |s| ==> GroupCharAt(s, i))
    && (forall i :: 0 <= i < |s| - 1 ==> !UnderscorePairAt(s, i))
  }

  /** The character at `i` may stand in a digit group. */
  predicate GroupCharAt(s: string, i: nat)
    requires i < |s|
  {
    IsDigit(s[i]) || s[i] == '_'
  }

  predicate UnderscorePairAt(s: string, i: nat)
    requires i + 1 < |s|
  {
    s[i] == '_' && s[i + 1] == '_'
  }

  /** The decimal value of the digits of `s`, underscores skipped. */
  function DigitsValue(s: string): nat {
    if s == [] then 0
    else if IsDigit(s[|s| - 1]) then 10 * DigitsValue(s[..|s| - 1]) + DigitOf(s[|s| - 1])
    else DigitsValue(s[..|s| - 1])
  }

  /**
   The default limit on the number of decimal digits `int()` converts and `str()`
   renders (`sys.get_int_max_str_digits()`); underscores do not count, leading
   zeros do.
   */
  const INT_MAX_STR_DIGITS := 4300

  /** The number of decimal digits in `s`. */
  function DigitCount(s: string): nat {
    if s == [] then 0
    else DigitCount(s[..|s| - 1]) + (if IsDigit(s[|s| - 1]) then 1 else 0)
  }

  /** `int(text)`: Some(value), or None where Python raises ValueError. */
  function ParseInt(text: string): Option<int> {
    ParseSigned(StripRight(StripLeft(text)))
  }

  /** An optional sign followed by a digit group of at most `INT_MAX_STR_DIGITS` digits. */
  function ParseSigned(t: string): Option<int> {
    var negative := |t| > 0 && t[0] == '-';
    var body := if |t| > 0 && (t[0] == '-' || t[0] == '+') then t[1..] else t;
    if IsDigitGroup(body) && DigitCount(body) <= INT_MAX_STR_DIGITS then
      Some(if negative then 0 - DigitsValue(body) else DigitsValue(body))
    else None
  }

  /** The decimal rendering of `n`, as `str(n)` gives it. */
  function Decimal(n: nat): (s: string)
    ensures |s| > 0
    ensures AllDigits(s)
  {
    if n < 10 then ['0' + n as char]
    else Decimal(n / 10) + ['0' + (n % 10) as char]
  }

  predicate AllDigits(s: string) {
    forall i :: 0 <= i < |s| ==> IsDigit(s[i])
  }

  lemma StripOfDigits(s: string)
    requires |s| > 0 && AllDigits(s)
    ensures StripRight(StripLeft(s)) == s
  {
    assert !IsSpace(s[0]);
    assert StripLeft(s) == s;
    assert !IsSpace(s[|s| - 1]);
  }

  lemma DigitsAreDigitGroup(s: string)
    requires |s| > 0 && AllDigits(s)
    ensures IsDigitGroup(s)
  {
    assert forall i :: 0 <= i < |s| ==> GroupCharAt(s, i);
    assert forall i :: 0 <= i < |s| - 1 ==> !UnderscorePairAt(s, i);
  }

  lemma {:induction false} DigitCountOfDigits(s: string)
    requires AllDigits(s)
    ensures DigitCount(s) == |s|
  {
    if s != [] {
      var init := s[..|s| - 1];
      assert forall i :: 0 <= i < |init| ==> init[i] == s[i];
      DigitCountOfDigits(init);
    }
  }

  /** A plain run of decimal digits within the limit is read as its decimal value. */
  lemma ParseIntOfDigits(s: string)
    requires 0 < |s| <= INT_MAX_STR_DIGITS && AllDigits(s)
    ensures ParseInt(s) == Some(DigitsValue(s))
  {
    StripOfDigits(s);
    DigitsAreDigitGroup(s);
    DigitCountOfDigits(s);
    assert !(s[0] == '-' || s[0] == '+');
  }

  /** A run of more decimal digits than the limit allows makes `int()` raise ValueError. */
  lemma ParseIntOfTooManyDigits(s: string)
    requires |s| > INT_MAX_STR_DIGITS && AllDigits(s)
    ensures ParseInt(s) == None
  {
    StripOfDigits(s);
    DigitCountOfDigits(s);
    assert !(s[0] == '-' || s[0] == '+');
  }

  /**
   Reading back what `str` renders gives the number, `int(str(n)) == n`, for
   every `n` whose rendering `str` allows.
   */
  lemma {:induction false} ParseIntDecimal(n: nat)
    requires |Decimal(n)| <= INT_MAX_STR_DIGITS
    ensures ParseInt(Decimal(n)) == Some(n)
  {
    DigitsValueDecimal(n);
    ParseIntOfDigits(Decimal(n));
  }

  lemma {:induction false} DigitsValueDecimal(n: nat)
    ensures DigitsValue(Decimal(n)) == n
  {
    if n >= 10 {
      DigitsValueDecimal(n / 10);
      var s := Decimal(n);
      assert s[..|s| - 1] == Decimal(n / 10);
    }
  }

  /** A character that is neither white space, a digit, an underscore nor a sign makes `int()` fail. */
  lemma ParseIntOfStrayChar(s: string, i: nat)
    requires i < |s| && !IsSpace(s[i]) && !GroupCharAt(s, i) && s[i] != '-' && s[i] != '+'
    ensures ParseInt(s) == None
  {
    var left := StripLeft(s);
    StripLeftSpec(s);
    var lo := |s| - |left|;
    assert lo <= i;
    var t := StripRight(left);
    StripRightSpec(left);
    assert left[i - lo] == s[i];
    assert i - lo < |t|;
    assert t[i - lo] == s[i];
    if |t| > 0 && (t[0] == '-' || t[0] == '+') {
      var body := t[1..];
      assert body[i - lo - 1] == s[i] && !GroupCharAt(body, i - lo - 1);
    } else {
      assert !GroupCharAt(t, i - lo);
    }
  }

  /** A blank string is not a number. */
  lemma ParseIntOfBlank(text: string)
    requires forall i :: 0 <= i < |text| ==> IsSpace(text[i])
    ensures ParseInt(text) == None
  {
    StripLeftSpec(text);
    assert StripLeft(text) == [];
  }

  // ---------------------------------------------------------------------------
  // The reversing slice s[::-1]
  // ---------------------------------------------------------------------------

  /** `s[::-1]`. */
  function Reverse<T>(s: seq<T>): (r: seq<T>)
    ensures |r| == |s|
    ensures forall i :: 0 <= i < |s| ==> r[i] == s[|s| - 1 - i]
  {
    if s == [] then [] else Reverse(s[1..]) + [s[0]]
  }

  /** Reversing twice gives the original sequence back. */
  lemma ReverseReverse<T>(s: seq<T>)
    ensures Reverse(Reverse(s)) == s
  {
    assert forall i :: 0 <= i < |s| ==> Reverse(Reverse(s))[i] == s[i];
  }

  /** Reversal keeps the elements and their multiplicities. */
  lemma {:induction false} ReverseMultiset<T>(s: seq<T>)
    ensures multiset(Reverse(s)) == multiset(s)
  {
    if s != [] {
      ReverseMultiset(s[1..]);
      assert s == [s[0]] + s[1..];
    }
  }
}
