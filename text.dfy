/**
 * String helpers the routing code relies on: Rust's `str::trim`, the decimal
 * `Display` of an unsigned count, joinery's `join_with`, and the iteration of
 * a `HashSet`, whose order is unspecified.
 */
module Text {

  predicate StartsWith(s: string, p: string) {
    |p| <= |s| && s[..|p|] == p
  }

  /** Rust's `char::is_whitespace`: the characters with the Unicode White_Space property. */
  predicate IsWhitespace(c: char) {
    || ('\t' <= c <= '\r')
    || c == ' '
    || c == '\U{0085}'
    || c == '\U{00A0}'
    || c == '\U{1680}'
    || ('\U{2000}' <= c <= '\U{200A}')
    || c == '\U{2028}'
    || c == '\U{2029}'
    || c == '\U{202F}'
    || c == '\U{205F}'
    || c == '\U{3000}'
  }

  /** The characters of `s` from `i` up to (not including) `j` are all whitespace. */
  predicate BlankBetween(s: string, i: int, j: int)
    requires 0 <= i && j <= |s|
  {
    forall m :: i <= m < j ==> IsWhitespace(s[m])
  }

  /** Where `trim` starts its result: the first non-whitespace character at or after `i`. */
  function SkipForward(s: string, i: nat): (r: nat)
    requires i <= |s|
    ensures i <= r <= |s|
    ensures BlankBetween(s, i, r)
    ensures r < |s| ==> !IsWhitespace(s[r])
    decreases |s| - i
  {
    if i < |s| && IsWhitespace(s[i]) then SkipForward(s, i + 1) else i
  }

  /** Where `trim` ends its result: just after the last non-whitespace character before `j`, but not before `lo`. */
  function SkipBackward(s: string, lo: nat, j: nat): (r: nat)
    requires lo <= j <= |s|
    ensures lo <= r <= j
    ensures BlankBetween(s, r, j)
    ensures r > lo ==> !IsWhitespace(s[r - 1])
    decreases j
  {
    if j > lo && IsWhitespace(s[j - 1]) then SkipBackward(s, lo, j - 1) else j
  }

  /** Rust's `str::trim`: the leading whitespace is dropped, then the trailing whitespace. */
  function Trim(s: string): (r: string)
    ensures exists i, j :: PaddedAt(s, r, i, j)
    ensures r != [] ==> !IsWhitespace(r[0]) && !IsWhitespace(r[|r| - 1])
  {
    var a := SkipForward(s, 0);
    var b := SkipBackward(s, a, |s|);
    assert PaddedAt(s, s[a..b], a, b);
    s[a..b]
  }

  /** `s` is `w` with whitespace before it, up to `i`, and whitespace after it, from `j`. */
  predicate PaddedAt(s: string, w: string, i: int, j: int) {
    0 <= i <= j <= |s| && BlankBetween(s, 0, i) && s[i..j] == w && BlankBetween(s, j, |s|)
  }

  /** What trimming leaves is padded by what it removed. */
  lemma TrimPadded(s: string)
    ensures PaddedAt(s, Trim(s), SkipForward(s, 0), SkipBackward(s, SkipForward(s, 0), |s|))
  {
  }

  /** Padding a word that has no whitespace at its ends is undone by trimming. */
  lemma PaddedTrims(s: string, w: string, i: int, j: int)
    requires w != [] && !IsWhitespace(w[0]) && !IsWhitespace(w[|w| - 1])
    requires PaddedAt(s, w, i, j)
    ensures Trim(s) == w
  {
    var first, last := s[i], s[j - 1];
    assert first == w[0] && last == w[|w| - 1];
    var a := SkipForward(s, 0);
    assert a <= i by {
      assert i < a ==> IsWhitespace(first);
    }
    var at := s[a];
    assert i <= a by {
      assert a < i ==> IsWhitespace(at);
    }
    var b := SkipBackward(s, a, |s|);
    assert j <= b by {
      assert b < j ==> IsWhitespace(last);
    }
    var before := s[b - 1];
    assert b <= j by {
      assert j < b ==> IsWhitespace(before);
    }
  }

  /**
   * For a word that neither starts nor ends with whitespace (such as "!online"),
   * trimming `s` gives the word exactly when `s` is that word padded with whitespace.
   */
  lemma TrimIsPadding(s: string, w: string)
    requires w != [] && !IsWhitespace(w[0]) && !IsWhitespace(w[|w| - 1])
    ensures Trim(s) == w <==> exists i, j :: PaddedAt(s, w, i, j)
  {
    TrimPadded(s);
    if exists i, j :: PaddedAt(s, w, i, j) {
      var i, j :| PaddedAt(s, w, i, j);
      PaddedTrims(s, w, i, j);
    }
  }

  predicate IsDigit(c: char) {
    '0' <= c <= '9'
  }

  predicate AllDigits(s: string) {
    forall i :: 0 <= i < |s| ==> IsDigit(s[i])
  }

  function DigitChar(d: nat): (c: char)
    requires d < 10
  {
    ('0' as int + d) as char
  }

  function DigitValue(c: char): nat
    requires IsDigit(c)
  {
    c as int - '0' as int
  }

  /** The decimal rendering of a count (Rust's `{}` on `usize`): digits only, no leading zero. */
  function Decimal(n: nat): (r: string)
    ensures r != [] && AllDigits(r)
    ensures r[0] == '0' <==> n == 0
    ensures n == 0 ==> r == "0"
  {
    if n < 10 then [DigitChar(n)] else Decimal(n / 10) + [DigitChar(n % 10)]
  }

  /** The number a string of decimal digits denotes. */
  function DigitsValue(s: string): nat
    requires AllDigits(s)
  {
    if s == [] then 0 else DigitsValue(s[..|s| - 1]) * 10 + DigitValue(s[|s| - 1])
  }

  /** Reading back the rendered count gives the count. */
  lemma {:induction false} DecimalRoundTrip(n: nat)
    ensures DigitsValue(Decimal(n)) == n
  {
    if n >= 10 {
      var s := Decimal(n);
      assert s[..|s| - 1] == Decimal(n / 10);
      DecimalRoundTrip(n / 10);
    }
  }

  /** The combined length of the items. */
  function TotalLength(xs: seq<string>): nat {
    if xs == [] then 0 else |xs[0]| + TotalLength(xs[1..])
  }

  /** joinery's `join_with`: the items in order with `sep` between neighbours. */
  function Join(xs: seq<string>, sep: string): (r: string)
    ensures |xs| == 0 ==> r == []
    ensures |xs| > 0 ==> StartsWith(r, xs[0]) && |r| == TotalLength(xs) + (|xs| - 1) * |sep|
  {
    if |xs| == 0 then "" else if |xs| == 1 then xs[0] else xs[0] + sep + Join(xs[1..], sep)
  }

  /** joinery writes left to right: joining one more item appends the separator and that item. */
  lemma {:induction false} JoinSnoc(xs: seq<string>, sep: string)
    requires |xs| > 1
    ensures Join(xs, sep) == Join(xs[..|xs| - 1], sep) + sep + xs[|xs| - 1]
  {
    var n := |xs|;
    if n > 2 {
      JoinSnoc(xs[1..], sep);
      assert xs[1..][..n - 2] == xs[..n - 1][1..];
    }
  }

  predicate Distinct(xs: seq<string>) {
    forall i, j :: 0 <= i < j < |xs| ==> xs[i] != xs[j]
  }

  /** `xs` lists every member of `s` exactly once, in some order. */
  predicate IsListing(xs: seq<string>, s: set<string>) {
    Distinct(xs) && (forall x :: x in xs ==> x in s) && (forall x :: x in s ==> x in xs)
  }

  /** A listing has one item per member of the set. */
  lemma {:induction false} ListingLength(xs: seq<string>, s: set<string>)
    requires IsListing(xs, s)
    ensures |xs| == |s|
  {
    if xs == [] {
      assert s == {};
    } else {
      var rest := s - {xs[0]};
      assert xs[0] in s;
      forall x ensures x in xs[1..] <==> x in rest {
        if x in xs[1..] {
          var k :| 0 <= k < |xs[1..]| && xs[1..][k] == x;
          assert xs[0] != xs[k + 1];
        }
        if x in rest {
          assert x in xs;
          var k :| 0 <= k < |xs| && xs[k] == x;
          assert k != 0;
          assert xs[1..][k - 1] == x;
        }
      }
      assert IsListing(xs[1..], rest);
      ListingLength(xs[1..], rest);
    }
  }

  /** Iterating a `HashSet`: visits every member once, in an order the set does not fix. */
  method Enumerate(s: set<string>) returns (xs: seq<string>)
    ensures IsListing(xs, s)
  {
    var rest := s;
    xs := [];
    while rest != {}
      invariant forall x :: x in s <==> x in xs || x in rest
      invariant forall x :: x in xs ==> x !in rest
      invariant Distinct(xs)
      decreases |rest|
    {
      var x :| x in rest;
      xs := xs + [x];
      rest := rest - {x};
    }
  }
}
