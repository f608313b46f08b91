/** Value-level helpers shared by the receiver model: optional values, the
    truthiness tests the handlers apply to report fields, and the string
    operations they use to build messages (join, decimal formatting, substring
    test, basename, the part of an address before its prefix length). */
module Common {

  datatype Option<+T> = None | Some(value: T) {
    /** The value, or `default` for None. */
    function GetOr(default: T): T {
      match this
      case Some(v) => v
      case None => default
    }
  }

  /** Truth value of an optional text field: None and "" are false. */
  predicate Truthy(s: Option<string>) {
    s.Some? && s.value != ""
  }

  /** Truth value of an optional integer field: None and 0 are false. */
  predicate IntTruthy(p: Option<int>) {
    p.Some? && p.value != 0
  }

  /** The set of identifiers listed in a report. */
  function Elems(s: seq<nat>): set<nat> {
    set x | x in s
  }

  /** The identifiers of a prefix one longer. */
  lemma ElemsSnoc(s: seq<nat>, i: nat)
    requires i < |s|
    ensures Elems(s[..i + 1]) == Elems(s[..i]) + {s[i]}
  {
    assert s[..i + 1] == s[..i] + [s[i]];
  }

  /** `sep.join(parts)`. */
  function Join(sep: string, parts: seq<string>): (r: string)
    ensures parts == [] ==> r == ""
    ensures |parts| == 1 ==> r == parts[0]
    ensures |parts| > 0 ==> parts[0] <= r
  {
    if |parts| == 0 then ""
    else if |parts| == 1 then parts[0]
    else parts[0] + sep + Join(sep, parts[1..])
  }

  function DigitChar(d: nat): char
    requires d < 10
  {
    ('0' as int + d) as char
  }

  /** Decimal rendering of a natural number, as `str(n)` and `"{0}".format(n)` give it. */
  function NatToString(n: nat): (s: string)
    ensures |s| > 0
    ensures forall c :: c in s ==> '0' <= c <= '9'
  {
    if n < 10 then [DigitChar(n)] else NatToString(n / 10) + [DigitChar(n % 10)]
  }

  /** The number a string of decimal digits denotes, as `int(s)` reads it. */
  function DigitsValue(s: string): nat
    requires forall i :: 0 <= i < |s| ==> '0' <= s[i] <= '9'
  {
    if s == [] then 0
    else 10 * DigitsValue(s[..|s| - 1]) + (s[|s| - 1] as int - '0' as int)
  }

  /** Reading a rendered number back gives the number: `int(str(n)) == n`. */
  lemma {:induction false} NatToStringValue(n: nat)
    ensures var s := NatToString(n); (forall i :: 0 <= i < |s| ==> '0' <= s[i] <= '9') && DigitsValue(s) == n
  {
    if n >= 10 {
      var front := NatToString(n / 10);
      assert NatToString(n)[..|front|] == front;
      NatToStringValue(n / 10);
    }
  }

  /** `p in s` on strings: `p` occurs in `s` at some position. */
  predicate Contains(s: string, p: string)
  {
    p <= s || (|s| > 0 && Contains(s[1..], p))
  }

  /** A text contains everything it starts with. */
  lemma ContainsPrefix(s: string, p: string)
    requires p <= s
    ensures Contains(s, p)
  {
  }

  /** What occurs in `b` still occurs once something is put before it. */
  lemma {:induction false} ContainsAfter(a: string, b: string, p: string)
    requires Contains(b, p)
    ensures Contains(a + b, p)
  {
    if |a| == 0 {
      assert a + b == b;
    } else {
      assert (a + b)[1..] == a[1..] + b;
      ContainsAfter(a[1..], b, p);
    }
  }

  /** What occurs in `a` still occurs once something is put after it. */
  lemma {:induction false} ContainsBefore(a: string, b: string, p: string)
    requires Contains(a, p)
    ensures Contains(a + b, p)
  {
    if p <= a {
      assert (a + b)[..|p|] == a[..|p|];
    } else {
      assert (a + b)[1..] == a[1..] + b;
      ContainsBefore(a[1..], b, p);
    }
  }

  /** Every part occurs in the joined text. */
  lemma {:induction false} JoinContains(sep: string, parts: seq<string>, i: nat)
    requires i < |parts|
    ensures Contains(Join(sep, parts), parts[i])
  {
    if |parts| == 1 {
      ContainsPrefix(parts[0], parts[0]);
    } else if i == 0 {
      ContainsPrefix(parts[0], parts[0]);
      ContainsBefore(parts[0], sep + Join(sep, parts[1..]), parts[0]);
      assert parts[0] + (sep + Join(sep, parts[1..])) == Join(sep, parts);
    } else {
      JoinContains(sep, parts[1..], i - 1);
      ContainsAfter(parts[0] + sep, Join(sep, parts[1..]), parts[i]);
    }
  }

  /** `os.path.basename(path)`: what follows the last '/'. */
  function Basename(path: string): (b: string)
    ensures '/' !in b
    ensures |b| <= |path| && path[|path| - |b|..] == b
    ensures |b| < |path| ==> path[|path| - |b| - 1] == '/'
  {
    if |path| == 0 || path[|path| - 1] == '/' then ""
    else
      var front := path[..|path| - 1];
      var b := Basename(front);
      assert path[|path| - |b| - 1..] == b + [path[|path| - 1]] by {
        assert path == front + [path[|path| - 1]];
      }
      b + [path[|path| - 1]]
  }

  /** `s.split('/')[0]`: what precedes the first '/'. */
  function BeforeSlash(s: string): (r: string)
    ensures '/' !in r
    ensures r <= s
    ensures |r| < |s| ==> s[|r|] == '/'
  {
    if |s| == 0 || s[0] == '/' then "" else [s[0]] + BeforeSlash(s[1..])
  }
}
