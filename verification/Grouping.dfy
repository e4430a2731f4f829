/** Globalize's `expandNumber`: digit grouping and its inverse in `parseFloat`. The number has already
    been rounded and written out as digits, a fraction and a non-negative exponent. */
module Grouping {

  predicate IsDigit(c: char) {
    '0' <= c <= '9'
  }

  predicate Digits(s: string) {
    forall i :: 0 <= i < |s| ==> IsDigit(s[i])
  }

  /** A separator: not empty, and free of digits. */
  predicate Separator(sep: string) {
    sep != [] && forall i :: 0 <= i < |sep| ==> !IsDigit(sep[i])
  }

  /** `zeroPad`: zeros up to `count` characters, in front if `left` is given and behind otherwise. */
  method ZeroPad(str: string, count: nat, left: bool := false) returns (r: string)
    ensures r == if left then PaddedInFront(str, count) else Padded(str, count)
  {
    r := str;
    for l := |str| to if |str| < count then count else |str|
      invariant r == if left then PaddedInFront(str, l) else Padded(str, l)
    {
      OneMoreZero(str, l);
      r := if left then "0" + r else r + "0";
    }
  }

  lemma OneMoreZero(str: string, l: nat)
    requires |str| <= l
    ensures Padded(str, l + 1) == Padded(str, l) + "0" && PaddedInFront(str, l + 1) == "0" + PaddedInFront(str, l)
  {
  }

  function PaddedInFront(str: string, count: nat): (r: string)
    ensures |r| == if |str| < count then count else |str|
    ensures forall i :: 0 <= i < |r| ==> r[i] == if i < |r| - |str| then '0' else str[i - (|r| - |str|)]
  {
    if count <= |str| then str else seq(count - |str|, _ => '0') + str
  }

  function Padded(str: string, count: nat): (r: string)
    ensures |r| == if |str| < count then count else |str|
    ensures forall i :: 0 <= i < |r| ==> r[i] == if i < |str| then str[i] else '0'
  {
    if count <= |str| then str else str + seq(count - |str|, _ => '0')
  }

  /** The size of the `k`-th group from the right; the last one given repeats. */
  function SizeAt(groupSizes: seq<nat>, k: nat): nat
    requires groupSizes != []
  {
    if k < |groupSizes| then groupSizes[k] else groupSizes[|groupSizes| - 1]
  }

  /** The groups of `s`, left to right, when `k` groups have been cut off to its right already. */
  function Groups(s: string, groupSizes: seq<nat>, k: nat): (gs: seq<string>)
    requires groupSizes != []
    ensures gs != []
    decreases |s|
  {
    var size := SizeAt(groupSizes, k);
    if size == 0 || size >= |s| then [s]
    else Groups(s[..|s| - size], groupSizes, k + 1) + [s[|s| - size..]]
  }

  function Join(gs: seq<string>, sep: string): string
    requires gs != []
  {
    if |gs| == 1 then gs[0] else Join(gs[..|gs| - 1], sep) + sep + gs[|gs| - 1]
  }

  /** `split(sep).join("")`. */
  function Strip(t: string, sep: string): string
    requires sep != []
    decreases |t|
  {
    if |t| < |sep| then t
    else if t[..|sep|] == sep then Strip(t[|sep|..], sep)
    else [t[0]] + Strip(t[1..], sep)
  }

  // ---------- the algorithm ----------

  /** The integer digits and the fraction, with the decimal point moved `exponent` places right. */
  function Shifted(digits: string, right: string, exponent: nat): (string, string) {
    var padded := Padded(right, exponent);
    (digits + padded[..exponent], padded[exponent..])
  }

  /** The point moved `places` to the left, as the code does it: integer digits that are too few are
      filled up with zeros behind. */
  function ShiftedBack(digits: string, right: string, places: nat): (string, string) {
    var padded := Padded(digits, places + 1);
    (padded[..|padded| - places], padded[|padded| - places..] + right)
  }

  /** The integer digits and the fraction for an exponent of either sign. */
  function Expanded(digits: string, right: string, exponent: int): (string, string) {
    if exponent >= 0 then Shifted(digits, right, exponent) else ShiftedBack(digits, right, -exponent)
  }

  function DigitValue(c: char): (d: nat)
    requires IsDigit(c)
    ensures d < 10
  {
    (c as int - '0' as int) as nat
  }

  /** The number that digits before the point write. */
  function Whole(s: string): nat
    requires Digits(s)
  {
    if s == [] then 0 else 10 * Whole(s[..|s| - 1]) + DigitValue(s[|s| - 1])
  }

  /** The number that digits behind the point write. */
  function Part(s: string): real
    requires Digits(s)
  {
    if s == [] then 0.0 else (DigitValue(s[0]) as real + Part(s[1..])) / 10.0
  }

  function Amount(whole: string, rest: string): real
    requires Digits(whole) && Digits(rest)
  {
    Whole(whole) as real + Part(rest)
  }

  /** `x` multiplied by ten `n` times. */
  function TimesTen(x: real, n: nat): real {
    if n == 0 then x else 10.0 * TimesTen(x, n - 1)
  }

  /** The point moved one place: past the next digit, or past a new zero. */
  function ShiftedOnce(whole: string, rest: string): (string, string) {
    if rest == "" then (whole + "0", "") else (whole + [rest[0]], rest[1..])
  }

  lemma {:induction false} OnceIsTenTimes(whole: string, rest: string)
    requires Digits(whole) && Digits(rest)
    ensures var (w, r) := ShiftedOnce(whole, rest);
            Digits(w) && Digits(r) && Amount(w, r) == 10.0 * Amount(whole, rest)
  {
    var d := if rest == "" then '0' else rest[0];
    assert (whole + [d])[..|whole|] == whole;
    assert Whole(whole + [d]) == 10 * Whole(whole) + DigitValue(d);
  }

  lemma OncePlaceMore(digits: string, right: string, exponent: nat)
    requires exponent > 0
    ensures var (w, r) := Shifted(digits, right, exponent - 1); Shifted(digits, right, exponent) == ShiftedOnce(w, r)
  {
    var more, less := Padded(right, exponent), Padded(right, exponent - 1);
    assert more[..exponent] == more[..exponent - 1] + [more[exponent - 1]];
    assert more[..exponent - 1] == less[..exponent - 1];
    if |right| < exponent {
      assert less[exponent - 1..] == "" && more[exponent..] == "";
      assert more[exponent - 1] == '0';
    } else {
      assert more == right == less;
      assert less[exponent - 1..][1..] == more[exponent..];
    }
    assert digits + more[..exponent] == digits + less[..exponent - 1] + [more[exponent - 1]];
  }

  /** Moving the point `exponent` places right multiplies by that power of ten. */
  lemma {:induction false} ShiftScales(digits: string, right: string, exponent: nat)
    requires Digits(digits) && Digits(right)
    ensures var (whole, rest) := Shifted(digits, right, exponent);
            && Digits(whole) && Digits(rest) && |whole| == |digits| + exponent
            && Amount(whole, rest) == TimesTen(Amount(digits, right), exponent)
  {
    if exponent == 0 {
      assert Padded(right, 0) == right && digits + right[..0] == digits && right[0..] == right;
    } else {
      var (w, r) := Shifted(digits, right, exponent - 1);
      ShiftScales(digits, right, exponent - 1);
      OncePlaceMore(digits, right, exponent);
      OnceIsTenTimes(w, r);
    }
  }

  lemma {:induction false} TenTimesInside(x: real, n: nat)
    ensures TimesTen(10.0 * x, n) == 10.0 * TimesTen(x, n)
  {
    if n > 0 { TenTimesInside(x, n - 1); }
  }

  /** Cutting the last `places` digits off in front of the point divides by that power of ten. */
  lemma {:induction false} CutScales(s: string, right: string, places: nat)
    requires Digits(s) && Digits(right) && places <= |s|
    ensures TimesTen(Amount(s[..|s| - places], s[|s| - places..] + right), places) == Amount(s, right)
  {
    var k := |s| - places;
    if places == 0 {
      assert s[..k] == s && s[k..] + right == right;
    } else {
      var w, r := s[..k], s[k..] + right;
      assert s[..k + 1] == w + [r[0]] && s[k + 1..] + right == r[1..];
      OnceIsTenTimes(w, r);
      TenTimesInside(Amount(w, r), places - 1);
      CutScales(s, right, places - 1);
    }
  }

  /** Zeros behind change the number unless there are none or the number is 0. */
  lemma {:induction false} ZerosBehind(s: string, count: nat)
    requires Digits(s)
    ensures Whole(Padded(s, count)) >= Whole(s)
    ensures Whole(Padded(s, count)) == Whole(s) <==> count <= |s| || Whole(s) == 0
    decreases count
  {
    if count > |s| {
      ZerosBehind(s, count - 1);
      assert Padded(s, count)[..count - 1] == Padded(s, count - 1);
    }
  }

  /** Moving the point left gives the right number if and only if the digits in front of it are more than
      the places to move, or all zeros. */
  lemma {:induction false} ShiftBackScalesIff(digits: string, right: string, places: nat)
    requires Digits(digits) && Digits(right)
    ensures var (whole, rest) := ShiftedBack(digits, right, places);
            && whole != [] && Digits(whole) && Digits(rest)
            && (TimesTen(Amount(whole, rest), places) == Amount(digits, right) <==>
                  places < |digits| || Whole(digits) == 0)
  {
    CutScales(Padded(digits, places + 1), right, places);
    ZerosBehind(digits, places + 1);
  }

  /** One ten-millionth is written "1e-7", and comes out as 1. */
  lemma {:induction false} ShiftBackExample()
    ensures ShiftedBack("1", "", 7) == ("1", "0000000")
  {
    var padded := Padded("1", 8);
    assert padded[..1] == "1" && padded[1..] == "0000000";
    assert padded[1..] + "" == padded[1..];
  }

  /** The fraction as shown: nothing for precision 0, and otherwise cut or padded to `precision`. */
  function Fraction(right: string, precision: nat, point: string): string {
    if precision == 0 then ""
    else point + if |right| > precision then right[..precision] else Padded(right, precision)
  }

  /** It shows exactly `precision` digits behind the point: those of the fraction as far as it goes, and
      zeros after them. */
  lemma {:induction false} FractionShows(right: string, precision: nat, point: string)
    requires precision > 0
    ensures var f := Fraction(right, precision, point);
            && |f| == |point| + precision && point <= f
            && forall i :: 0 <= i < precision ==> f[|point| + i] == if i < |right| then right[i] else '0'
    ensures Fraction(right, 0, point) == ""
  {
  }

  method ExpandNumber(digits: string, fraction: string, exponent: int, precision: nat,
                      groupSizes: seq<nat>, sep: string, point: string)
    returns (r: string)
    requires digits != [] && groupSizes != []
    ensures var (whole, rest) := Expanded(digits, fraction, exponent);
            r == Join(Groups(whole, groupSizes, 0), sep) + Fraction(rest, precision, point)
  {
    var numberString, right := MovePoint(digits, fraction, exponent);
    if precision > 0 {
      if |right| > precision {
        right := point + right[..precision];
      } else {
        right := ZeroPad(right, precision);
        right := point + right;
      }
    } else {
      right := "";
    }
    r := InsertSeparators(numberString, right, groupSizes, sep);
  }

  /** Work the exponent into the digits. */
  method MovePoint(digits: string, fraction: string, exponent: int) returns (numberString: string, right: string)
    requires digits != []
    ensures (numberString, right) == Expanded(digits, fraction, exponent) && numberString != []
  {
    numberString, right := digits, fraction;
    if exponent > 0 {
      right := ZeroPad(right, exponent, false);
      numberString := numberString + right[..exponent];
      right := right[exponent..];
    } else if exponent < 0 {
      var places := -exponent;
      numberString := ZeroPad(numberString, places + 1);
      right := numberString[|numberString| - places..] + right;
      numberString := numberString[..|numberString| - places];
    } else {
      assert digits + [] == digits && fraction[..0] == [] && fraction[0..] == fraction;
    }
  }

  /** What the loop makes of the `todo` digits still to be grouped and the text `ret` already grouped. */
  function Result(todo: string, ret: string, sep: string, right: string): string {
    todo + (if ret != [] then sep + ret + right else right)
  }

  /** The final text, when `len` digits are left, `k` groups are cut, and `ret` is what they make. */
  function Ahead(digits: string, len: nat, groupSizes: seq<nat>, k: nat, ret: string, sep: string, right: string)
    : string
    requires len <= |digits| && groupSizes != []
  {
    Result(Join(Groups(digits[..len], groupSizes, k), sep), ret, sep, right)
  }

  /** A group and what is grouped to its right. */
  function Grown(cut: string, ret: string, sep: string): string {
    cut + if ret != [] then sep + ret else ""
  }

  /** One more group cut, when `i` is the index of the last digit left. */
  lemma {:induction false} CutGroup(digits: string, i: nat, groupSizes: seq<nat>, k: nat,
                                    ret: string, sep: string, right: string)
    requires groupSizes != [] && 0 < SizeAt(groupSizes, k) <= i < |digits|
    ensures var size := SizeAt(groupSizes, k);
            Ahead(digits, i + 1, groupSizes, k, ret, sep, right)
              == Ahead(digits, i - size + 1, groupSizes, k + 1,
                       Grown(digits[i - size + 1..i + 1], ret, sep), sep, right)
  {
    var size, left := SizeAt(groupSizes, k), digits[..i + 1];
    var cut := digits[i - size + 1..i + 1];
    assert left[..|left| - size] == digits[..i - size + 1] && left[|left| - size..] == cut;
    var more := Groups(digits[..i - size + 1], groupSizes, k + 1);
    JoinLast(more, cut, sep);
    MoveOver(Join(more, sep), cut, ret, sep, right);
  }

  /** No more cuts: what is left is the leftmost group. */
  lemma LastGroup(digits: string, len: nat, groupSizes: seq<nat>, k: nat, ret: string, sep: string, right: string)
    requires len <= |digits| && groupSizes != [] && (SizeAt(groupSizes, k) == 0 || SizeAt(groupSizes, k) >= len)
    ensures Ahead(digits, len, groupSizes, k, ret, sep, right) == Result(digits[..len], ret, sep, right)
  {
  }

  lemma NoneCut(digits: string, groupSizes: seq<nat>, sep: string, right: string)
    requires groupSizes != []
    ensures Ahead(digits, |digits|, groupSizes, 0, "", sep, right) == Join(Groups(digits, groupSizes, 0), sep) + right
  {
    assert digits[..|digits|] == digits;
  }

  method InsertSeparators(numberString: string, right: string, groupSizes: seq<nat>, sep: string) returns (r: string)
    requires numberString != [] && groupSizes != []
    ensures r == Join(Groups(numberString, groupSizes, 0), sep) + right
  {
    var curSize, curGroupIndex := groupSizes[0], 1;
    var stringIndex: int := |numberString| - 1;
    var ret := "";
    ghost var k: nat := 0;
    ghost var whole := Ahead(numberString, |numberString|, groupSizes, 0, "", sep, right);
    NoneCut(numberString, groupSizes, sep, right);
    while stringIndex >= 0
      invariant 0 <= stringIndex < |numberString| && 1 <= curGroupIndex <= |groupSizes|
      invariant curSize == SizeAt(groupSizes, k)
      invariant curGroupIndex == if k + 1 <= |groupSizes| then k + 1 else |groupSizes|
      invariant whole == Ahead(numberString, stringIndex + 1, groupSizes, k, ret, sep, right)
      decreases stringIndex
    {
      if curSize == 0 || curSize > stringIndex {
        LastGroup(numberString, stringIndex + 1, groupSizes, k, ret, sep, right);
        return numberString[..stringIndex + 1] + (if ret != [] then sep + ret + right else right);
      }
      CutGroup(numberString, stringIndex, groupSizes, k, ret, sep, right);
      ret := numberString[stringIndex - curSize + 1..stringIndex + 1] + (if ret != [] then sep + ret else "");
      stringIndex := stringIndex - curSize;
      if curGroupIndex < |groupSizes| {
        curSize := groupSizes[curGroupIndex];
        curGroupIndex := curGroupIndex + 1;
      }
      k := k + 1;
    }
    assert false;  // the return behind the loop is never reached
  }

  lemma JoinLast(gs: seq<string>, g: string, sep: string)
    requires gs != []
    ensures Join(gs + [g], sep) == Join(gs, sep) + sep + g
  {
    assert (gs + [g])[..|gs|] == gs;
  }

  lemma MoveOver(front: string, cut: string, ret: string, sep: string, right: string)
    requires cut != []
    ensures Result(front + sep + cut, ret, sep, right)
         == Result(front, Grown(cut, ret, sep), sep, right)
  {
    if ret == [] {
      assert cut + "" == cut;
      assert front + sep + cut + right == front + (sep + cut + right);
    } else {
      assert front + sep + cut + (sep + ret + right) == front + (sep + (cut + (sep + ret)) + right);
    }
  }

  // ---------- what it means ----------

  /** Every group but the leftmost has its full size, the leftmost is neither empty nor too long, and
      a size of 0 leaves the rest in one piece. */
  lemma {:induction false} GroupLengths(s: string, groupSizes: seq<nat>, k: nat, i: nat)
    requires s != [] && groupSizes != [] && i < |Groups(s, groupSizes, k)|
    ensures var gs := Groups(s, groupSizes, k); var g := gs[|gs| - 1 - i];
            var size := if k + i < |groupSizes| then groupSizes[k + i] else groupSizes[|groupSizes| - 1];
            && g != []
            && (i < |gs| - 1 ==> |g| == size)
            && (i == |gs| - 1 ==> size == 0 || |g| <= size)
    decreases |s|
  {
    var size := SizeAt(groupSizes, k);
    if size != 0 && size < |s| && i > 0 {
      GroupLengths(s[..|s| - size], groupSizes, k + 1, i - 1);
    }
  }

  lemma StripOne(c: char, t: string, sep: string)
    requires IsDigit(c) && Separator(sep)
    ensures Strip([c] + t, sep) == [c] + Strip(t, sep)
  {
    var u := [c] + t;
    assert u[0] == c && u[1..] == t;
    if |u| >= |sep| {
      assert u[..|sep|][0] != sep[0];
    } else {
      assert Strip(t, sep) == t;
    }
  }

  /** One separator stands between each group and the next, and nowhere else. */
  lemma {:induction false} JoinFirst(gs: seq<string>, sep: string)
    requires gs != []
    ensures Join(gs, sep) == if |gs| == 1 then gs[0] else gs[0] + sep + Join(gs[1..], sep)
  {
    if |gs| > 2 {
      var init, last := gs[..|gs| - 1], gs[|gs| - 1];
      JoinFirst(init, sep);
      assert gs[1..][..|gs[1..]| - 1] == init[1..] && gs[1..][|gs[1..]| - 1] == last;
      var mid := Join(init[1..], sep);
      assert gs[0] + sep + mid + sep + last == gs[0] + sep + (mid + sep + last);
    } else if |gs| == 2 {
      assert gs[..1] == [gs[0]] && gs[1..] == [gs[1]];
    }
  }

  /** Taking digits off the front of what is to be stripped. */
  lemma {:induction false} StripDigits(d: string, t: string, sep: string)
    requires Digits(d) && Separator(sep)
    ensures Strip(d + t, sep) == d + Strip(t, sep)
    decreases |d|
  {
    if d == [] {
      assert d + t == t;
    } else {
      StripDigits(d[1..], t, sep);
      StripOne(d[0], d[1..] + t, sep);
      assert d == [d[0]] + d[1..];
      ConcatAssociates([d[0]], d[1..], t);
      ConcatAssociates([d[0]], d[1..], Strip(t, sep));
    }
  }

  lemma {:induction false} StripSeparator(t: string, sep: string)
    requires sep != []
    ensures Strip(sep + t, sep) == Strip(t, sep)
  {
    assert (sep + t)[..|sep|] == sep && (sep + t)[|sep|..] == t;
  }

  lemma ConcatAssociates(a: string, b: string, c: string)
    ensures a + (b + c) == a + b + c
  {
  }

  lemma Reassociate(a: string, b: string, c: string, d: string)
    ensures a + b + c + d == a + (b + (c + d))
  {
  }

  lemma {:induction false} StripGroups(s: string, groupSizes: seq<nat>, k: nat, sep: string, t: string)
    requires s != [] && Digits(s) && groupSizes != [] && Separator(sep)
    ensures Strip(Join(Groups(s, groupSizes, k), sep) + t, sep) == s + Strip(t, sep)
    decreases |s|
  {
    var size := SizeAt(groupSizes, k);
    if size == 0 || size >= |s| {
      StripDigits(s, t, sep);
    } else {
      var init, last := s[..|s| - size], s[|s| - size..];
      var more := Groups(init, groupSizes, k + 1);
      JoinLast(more, last, sep);
      Reassociate(Join(more, sep), sep, last, t);
      StripGroups(init, groupSizes, k + 1, sep, sep + (last + t));
      StripSeparator(last + t, sep);
      StripDigits(last, t, sep);
      assert s == init + last;
      ConcatAssociates(init, last, Strip(t, sep));
    }
  }

  /** Stripping the separators from grouped digits gives the digits back, whatever the group sizes, and
      what comes out begins with a digit. Stripping a second separator as well, as `parseFloat` does for
      non-breaking spaces, changes nothing. */
  lemma {:induction false} StripInvertsGrouping(s: string, groupSizes: seq<nat>, sep: string, alt: string)
    requires s != [] && Digits(s) && groupSizes != [] && Separator(sep) && Separator(alt)
    ensures var grouped := Join(Groups(s, groupSizes, 0), sep);
            Strip(grouped, sep) == s && Strip(Strip(grouped, sep), alt) == s && grouped != [] && grouped[0] == s[0]
  {
    var grouped := Join(Groups(s, groupSizes, 0), sep);
    StripGroups(s, groupSizes, 0, sep, []);
    assert grouped + [] == grouped;
    assert s + Strip([], sep) == s;
    StripDigits(s, [], alt);
    assert s + [] == s && s + Strip([], alt) == s;
    FirstDigit(s, groupSizes, 0, sep);
  }

  lemma {:induction false} FirstDigit(s: string, groupSizes: seq<nat>, k: nat, sep: string)
    requires s != [] && groupSizes != []
    ensures var j := Join(Groups(s, groupSizes, k), sep); j != [] && j[0] == s[0]
    decreases |s|
  {
    var size := SizeAt(groupSizes, k);
    if size != 0 && size < |s| {
      FirstDigit(s[..|s| - size], groupSizes, k + 1, sep);
      JoinLast(Groups(s[..|s| - size], groupSizes, k + 1), s[|s| - size..], sep);
    }
  }
}
