/** The Python built-ins the application leans on, as values: `None`, a raised
    exception, `str.split(':')`, `int()` on an ASCII numeral, `str()` of a
    non-negative integer, the `02d` format and `list.remove`. */
module PyBuiltins {

  /** A Python value that may be `None`. */
  datatype Option<T> = None | Some(value: T)

  /** A value, or the message of the exception raised instead of returning it. */
  datatype Result<T> = Ok(value: T) | Err(message: string)

  /** Python truthiness of an optional string: `None` and `""` are false. */
  predicate Truthy(s: Option<string>)
  {
    s.Some? && s.value != ""
  }

  // ---------------------------------------------------------------------
  // Digits and numerals

  predicate IsDigit(c: char)
  {
    '0' <= c <= '9'
  }

  predicate AllDigits(s: string)
  {
    forall i :: 0 <= i < |s| ==> IsDigit(s[i])
  }

  /** A component that `int()` accepts, restricted to ASCII digits. */
  predicate IsNumeral(s: string)
  {
    |s| > 0 && AllDigits(s)
  }

  function DigitChar(d: nat): (c: char)
    requires d < 10
    ensures IsDigit(c) && c as int - '0' as int == d
  {
    ('0' as int + d) as char
  }

  /** The number a string of decimal digits denotes (`int(s)`). */
  function Value(s: string): nat
    requires AllDigits(s)
  {
    if s == [] then 0 else 10 * Value(s[..|s| - 1]) + (s[|s| - 1] as int - '0' as int)
  }

  /** `str(n)`: the shortest decimal numeral of `n`. */
  function Decimal(n: nat): string
  {
    if n < 10 then [DigitChar(n)] else Decimal(n / 10) + [DigitChar(n % 10)]
  }

  /** `str(n)` reads back as `n`; it has one digit exactly when `n < 10`
      and starts with '0' only when it is "0". */
  lemma {:induction false} DecimalValue(n: nat)
    ensures var r := Decimal(n);
      && IsNumeral(r) && Value(r) == n
      && (|r| == 1) == (n < 10)
      && (r[0] == '0' ==> r == "0")
  {
    if n >= 10 {
      DecimalValue(n / 10);
      var r := Decimal(n);
      assert r[..|r| - 1] == Decimal(n / 10);
    }
  }

  /** `format(n, '02d')`: the numeral of `n`, zero-padded to at least two digits. */
  function Pad2(n: nat): (r: string)
    ensures IsNumeral(r) && Value(r) == n
    ensures |r| >= 2 && (n < 100 ==> |r| == 2)
    ensures n >= 10 ==> r == Decimal(n)
  {
    if n < 10 then
      var r := ['0', DigitChar(n)];
      assert r[..1] == ['0'] && ['0'][..0] == [];
      assert Value(['0']) == 0;
      r
    else
      DecimalValue(n);
      Decimal(n)
  }

  lemma DigitsValue(c1: char, c2: char)
    requires IsDigit(c1) && IsDigit(c2)
    ensures Value([c2]) == c2 as int - '0' as int
    ensures Value([c1, c2]) == 10 * (c1 as int - '0' as int) + (c2 as int - '0' as int)
  {
    assert [c2][..0] == [];
    assert [c1, c2][..1] == [c1] && [c1][..0] == [];
  }

  lemma {:induction false} LeadingZero(s: string)
    requires AllDigits(s)
    ensures AllDigits("0" + s) && Value("0" + s) == Value(s)
  {
    if s != [] {
      var t := "0" + s;
      assert t[..|t| - 1] == "0" + s[..|s| - 1];
      LeadingZero(s[..|s| - 1]);
    } else {
      assert ("0" + s)[..0] == [];
    }
  }

  // ---------------------------------------------------------------------
  // str.split(':') and its inverse ':'.join(...)

  /** `':'.join(parts)`. */
  function Join(parts: seq<string>): string
    requires |parts| >= 1
  {
    if |parts| == 1 then parts[0] else parts[0] + ":" + Join(parts[1..])
  }

  /** `s.split(':')`: the pieces between colons, `[""]` for the empty string. */
  function Split(s: string): (parts: seq<string>)
    ensures |parts| >= 1
  {
    if s == [] then [""]
    else
      var rest := Split(s[1..]);
      if s[0] == ':' then [""] + rest else [[s[0]] + rest[0]] + rest[1..]
  }

  /** The pieces of a split hold no colon, and joining them gives the text back. */
  lemma {:induction false} SplitParts(s: string)
    ensures forall i :: 0 <= i < |Split(s)| ==> ':' !in Split(s)[i]
    ensures Join(Split(s)) == s
  {
    if s != [] {
      var rest := Split(s[1..]);
      SplitParts(s[1..]);
      if s[0] == ':' {
        assert ([""] + rest)[1..] == rest;
      } else {
        var parts := [[s[0]] + rest[0]] + rest[1..];
        assert Split(s) == parts;
        if |rest| > 1 {
          assert parts[1..] == rest[1..];
        }
        forall i | 0 <= i < |parts|
          ensures ':' !in parts[i]
        {
          if i > 0 {
            assert parts[i] == rest[i];
          }
        }
      }
    }
  }

  lemma {:induction false} SplitNoColon(p: string)
    requires ':' !in p
    ensures Split(p) == [p]
  {
    if p != [] {
      SplitNoColon(p[1..]);
      assert [p[0]] + p[1..] == p;
    }
  }

  /** Splitting stops at the first colon. */
  lemma {:induction false} SplitAtColon(p: string, t: string)
    requires ':' !in p
    ensures Split(p + ":" + t) == [p] + Split(t)
  {
    if p == [] {
      assert p + ":" + t == ":" + t;
      assert (":" + t)[1..] == t;
    } else {
      var s := p + ":" + t;
      assert s[1..] == p[1..] + ":" + t;
      SplitAtColon(p[1..], t);
      var rest := Split(s[1..]);
      assert rest[0] == p[1..] && rest[1..] == Split(t);
      assert [s[0]] + rest[0] == p;
    }
  }

  /** Splitting undoes joining colon-free pieces. */
  lemma {:induction false} SplitJoin(parts: seq<string>)
    requires |parts| >= 1
    requires forall i :: 0 <= i < |parts| ==> ':' !in parts[i]
    ensures Split(Join(parts)) == parts
  {
    if |parts| == 1 {
      SplitNoColon(parts[0]);
    } else {
      SplitAtColon(parts[0], Join(parts[1..]));
      SplitJoin(parts[1..]);
    }
  }

  // ---------------------------------------------------------------------
  // list.remove

  /** `list.index(x)`: the position of the first element equal to `x`. */
  function IndexOf<T(==)>(s: seq<T>, x: T): (i: nat)
    requires x in s
    ensures i < |s| && s[i] == x && x !in s[..i]
  {
    if s[0] == x then 0
    else
      var i := 1 + IndexOf(s[1..], x);
      assert s[..i] == [s[0]] + s[1..][..i - 1];
      i
  }

  /** `list.remove(x)` when `x` is present: drops the first element equal to `x`. */
  function RemoveFirst<T(==)>(s: seq<T>, x: T): (r: seq<T>)
    requires x in s
    ensures |r| == |s| - 1
    ensures multiset(r) == multiset(s) - multiset{x}
    ensures r == s[..IndexOf(s, x)] + s[IndexOf(s, x) + 1..]
  {
    var i := IndexOf(s, x);
    assert s == s[..i] + [x] + s[i + 1..];
    s[..i] + s[i + 1..]
  }

  /** No element occurs twice. */
  predicate Distinct<T(==)>(s: seq<T>)
  {
    s == [] || (s[0] !in s[1..] && Distinct(s[1..]))
  }

  lemma {:induction false} DistinctAt<T>(s: seq<T>, i: nat, j: nat)
    requires Distinct(s) && i < j < |s|
    ensures s[i] != s[j]
  {
    if i == 0 {
      assert s[j] == s[1..][j - 1];
    } else {
      DistinctAt(s[1..], i - 1, j - 1);
    }
  }

  /** `Distinct` is the usual pairwise condition. */
  lemma {:induction false} DistinctPairwise<T>(s: seq<T>)
    ensures Distinct(s) <==> forall i, j :: 0 <= i < j < |s| ==> s[i] != s[j]
  {
    if s != [] {
      DistinctPairwise(s[1..]);
      if Distinct(s) {
        forall i, j | 0 <= i < j < |s|
          ensures s[i] != s[j]
        {
          DistinctAt(s, i, j);
        }
      }
      if forall i, j :: 0 <= i < j < |s| ==> s[i] != s[j] {
        forall i, j | 0 <= i < j < |s[1..]|
          ensures s[1..][i] != s[1..][j]
        {
          assert s[1..][i] == s[i + 1] && s[1..][j] == s[j + 1];
        }
      }
    }
  }
}
