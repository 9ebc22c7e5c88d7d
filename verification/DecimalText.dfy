/** printf of numbers padded with zeros to a fixed width, and how strcmp orders the texts. */
module DecimalText {
  import opened Text

  const DIGITS: string := "0123456789"

  /** A non-negative number, padded with zeros to width w. */
  function Padded(n: nat, w: nat): (r: string)
    ensures |r| >= w
    decreases n, w
  {
    if n == 0 && w == 0 then ""
    else if n == 0 then Padded(0, w - 1) + ['0']
    else Padded(n / 10, if w == 0 then 0 else w - 1) + [DIGITS[n % 10]]
  }

  /** Any number: the sign counts towards the width. */
  function Signed(n: int, w: nat): string
    requires w >= 1
  {
    if n >= 0 then Padded(n, w) else ['-'] + Padded(-n, w - 1)
  }

  function Pow10(w: nat): (r: nat)
    ensures r >= 1
  {
    if w == 0 then 1 else 10 * Pow10(w - 1)
  }

  function Sign(x: int): int { if x < 0 then -1 else if x > 0 then 1 else 0 }

  lemma PaddedUnfolds(n: nat, w: nat)
    requires w >= 1
    ensures Padded(n, w) == Padded(n / 10, w - 1) + [DIGITS[n % 10]]
  {
  }

  lemma CompareDigits(a: int, b: int)
    requires 0 <= a < 10 && 0 <= b < 10
    ensures Compare([DIGITS[a]], [DIGITS[b]]) == Sign(a - b)
  {
    assert forall k :: 0 <= k < 10 ==> DIGITS[k] as int == 48 + k;
  }

  lemma CompareLastDigit(x: string, y: string, a: int, b: int)
    requires |x| == |y| && 0 <= a < 10 && 0 <= b < 10
    ensures Compare(x + [DIGITS[a]], y + [DIGITS[b]]) == if Compare(x, y) == 0 then Sign(a - b) else Compare(x, y)
  {
    CompareSameLength(x, y, [DIGITS[a]], [DIGITS[b]]);
    CompareZero(x, y);
    CompareDigits(a, b);
  }

  /** Zero-padded decimal of a fixed width preserves order. */
  lemma {:induction false} PaddedOrder(m: nat, n: nat, w: nat)
    requires m < Pow10(w) && n < Pow10(w)
    ensures |Padded(m, w)| == |Padded(n, w)| == w
    ensures Compare(Padded(m, w), Padded(n, w)) == Sign(m - n)
    decreases w
  {
    if w > 0 {
      PaddedOrder(m / 10, n / 10, w - 1);
      PaddedUnfolds(m, w);
      PaddedUnfolds(n, w);
      CompareLastDigit(Padded(m / 10, w - 1), Padded(n / 10, w - 1), m % 10, n % 10);
      assert Sign(m - n) == if Sign(m / 10 - n / 10) == 0 then Sign(m % 10 - n % 10) else Sign(m / 10 - n / 10);
    }
  }

  lemma PaddedOrderThen(m: nat, n: nat, w: nat, x: string, y: string)
    requires m < Pow10(w) && n < Pow10(w)
    ensures Compare(Padded(m, w) + x, Padded(n, w) + y) == if m != n then Sign(m - n) else Compare(x, y)
  {
    PaddedOrder(m, n, w);
    CompareZero(Padded(m, w), Padded(n, w));
    CompareSameLength(Padded(m, w), Padded(n, w), x, y);
  }

  // ---- how the texts begin ----

  lemma {:induction false} UnpaddedStarts(n: nat)
    requires n > 0
    ensures |Padded(n, 0)| >= 1 && '1' <= Padded(n, 0)[0] <= '9'
  {
    assert Padded(n, 0) == Padded(n / 10, 0) + [DIGITS[n % 10]];
    if n >= 10 {
      UnpaddedStarts(n / 10);
    } else {
      assert Padded(n / 10, 0) == "";
      assert DIGITS[n % 10] as int == 48 + n;
    }
  }

  /** The first character of a padded number is a digit. */
  lemma {:induction false} PaddedStarts(n: nat, w: nat)
    requires w >= 1
    ensures |Padded(n, w)| >= 1 && '0' <= Padded(n, w)[0] <= '9'
    decreases n, w
  {
    PaddedUnfolds(n, w);
    if w > 1 {
      PaddedStarts(n / 10, w - 1);
    } else if n >= 10 {
      UnpaddedStarts(n / 10);
    } else {
      assert Padded(n / 10, 0) == "";
    }
  }

  /** A number too long for its width has no leading zero. */
  lemma {:induction false} LongStarts(n: nat, w: nat)
    requires n >= Pow10(w)
    ensures |Padded(n, w)| > 0 && '1' <= Padded(n, w)[0] <= '9'
    decreases w
  {
    if w == 0 {
      UnpaddedStarts(n);
    } else {
      PaddedUnfolds(n, w);
      LongStarts(n / 10, w - 1);
    }
  }

  lemma {:induction false} PowerStartsWithOne(w: nat)
    ensures |Padded(Pow10(w), w)| > 0 && Padded(Pow10(w), w)[0] == '1'
  {
    if w == 0 {
      assert Padded(0, 0) == "" && DIGITS[1] == '1';
    } else {
      var n := Pow10(w);
      assert n / 10 == Pow10(w - 1);
      PaddedUnfolds(n, w);
      PowerStartsWithOne(w - 1);
    }
  }

  lemma {:induction false} NinesStartWithNine(w: nat)
    requires w >= 1
    ensures |Padded(Pow10(w) - 1, w)| > 0 && Padded(Pow10(w) - 1, w)[0] == '9'
  {
    var n := Pow10(w) - 1;
    PaddedUnfolds(n, w);
    if w == 1 {
      assert Padded(0, 0) == "" && DIGITS[9] == '9';
    } else {
      assert n / 10 == Pow10(w - 1) - 1;
      NinesStartWithNine(w - 1);
    }
  }

  // ---- the order of signed numbers ----

  /** From -1 up to w digits numbers are ordered like their texts, whatever follows the texts. */
  lemma SignedOrder(m: int, n: int, w: nat, x: string, y: string)
    requires w >= 1 && -1 <= m < Pow10(w) && -1 <= n < Pow10(w)
    ensures Compare(Signed(m, w) + x, Signed(n, w) + y) == if m != n then Sign(m - n) else Compare(x, y)
  {
    if m == n {
      CompareSamePrefix(Signed(m, w), x, y);
    } else if m >= 0 && n >= 0 {
      PaddedOrderThen(m, n, w, x, y);
    } else if m < 0 {
      PaddedStarts(n, w);
    } else {
      PaddedStarts(m, w);
    }
  }

  /** All numbers from lo to hi are ordered like their texts. */
  ghost predicate OrderedAsText(lo: int, hi: int, w: nat)
    requires w >= 1
  {
    forall m, n, x, y :: lo <= m <= hi && lo <= n <= hi ==>
      Compare(Signed(m, w) + x, Signed(n, w) + y) == (if m != n then Sign(m - n) else Compare(x, y))
  }

  lemma AfterMinus(l: string, r: string, x: string, y: string)
    requires l == ['-'] + x && r == ['-'] + y
    ensures Compare(l + "", r + "") == Compare(x, y)
  {
    CompareSamePrefix(['-'], x, y);
    assert l + "" == l && r + "" == r;
  }

  /** Two negative numbers that fit the width are in the wrong order. */
  lemma NegativesReversed(m: int, n: int, w: nat)
    requires w >= 1 && m < n < 0 && -m < Pow10(w - 1)
    ensures Compare(Signed(m, w) + "", Signed(n, w) + "") == 1
  {
    PaddedOrder(-m, -n, w - 1);
    AfterMinus(Signed(m, w), Signed(n, w), Padded(-m, w - 1), Padded(-n, w - 1));
  }

  lemma FirstDecides(x: string, y: string)
    requires x != [] && y != [] && x[0] < y[0]
    ensures Compare(x, y) == -1
  {
  }

  /** The first number that is too long comes before the last one that is not. */
  lemma TooLongReversed(w: nat)
    requires w >= 1
    ensures Compare(Signed(Pow10(w), w) + "", Signed(Pow10(w) - 1, w) + "") == -1
  {
    PowerStartsWithOne(w);
    NinesStartWithNine(w);
    FirstDecides(Signed(Pow10(w), w) + "", Signed(Pow10(w) - 1, w) + "");
  }

  /** The interval is exact: around zero, text order is number order just from -1 to w digits. */
  lemma OrderedAsTextIff(lo: int, hi: int, w: nat)
    requires lo <= 0 <= hi && w >= 2
    ensures OrderedAsText(lo, hi, w) <==> -1 <= lo && hi < Pow10(w)
  {
    if -1 <= lo && hi < Pow10(w) {
      forall m, n, x, y | lo <= m <= hi && lo <= n <= hi
        ensures Compare(Signed(m, w) + x, Signed(n, w) + y) == (if m != n then Sign(m - n) else Compare(x, y))
      {
        SignedOrder(m, n, w, x, y);
      }
    } else if lo < -1 {
      assert Pow10(w - 1) == 10 * Pow10(w - 2);
      NegativesReversed(-2, -1, w);
    } else {
      TooLongReversed(w);
    }
  }

  // ---- the lowest text ----

  /** The text of -1. */
  function LowestText(w: nat): string
    requires w >= 2
  {
    ['-'] + seq(w - 2, _ => '0') + ['1']
  }

  lemma {:induction false} PaddedZero(w: nat)
    ensures Padded(0, w) == seq(w, _ => '0')
  {
    if w > 0 {
      PaddedZero(w - 1);
    }
  }

  lemma PaddedOne(w: nat)
    requires w >= 1
    ensures Padded(1, w) == seq(w - 1, _ => '0') + ['1']
  {
    PaddedUnfolds(1, w);
    PaddedZero(w - 1);
  }

  lemma MinusOneIsLowestText(n: int, w: nat)
    requires w >= 2 && n == -1
    ensures Signed(n, w) == LowestText(w)
  {
    PaddedOne(w - 1);
  }

  lemma PaddedOneIsLowest(n: nat, w: nat, x: string)
    requires w >= 2 && n >= 1
    ensures Compare(Padded(1, w) + ['-'], Padded(n, w) + (['-'] + x)) <= 0
  {
    if n < Pow10(w) {
      assert Pow10(w) == 10 * Pow10(w - 1);
      PaddedOrderThen(1, n, w, ['-'], ['-'] + x);
      CompareSamePrefix(['-'], [], x);
      assert ['-'] + [] == ['-'];
    } else {
      PaddedOne(w);
      LongStarts(n, w);
    }
  }

  lemma LowestAsPadded(w: nat)
    requires w >= 2
    ensures LowestText(w) + ['-'] == ['-'] + (Padded(1, w - 1) + ['-'])
  {
    PaddedOne(w - 1);
  }

  lemma BothAfterMinus(x: string, y: string, a: string, b: string)
    requires x == ['-'] + a && y == ['-'] + b && Compare(a, b) <= 0
    ensures Compare(x, y) <= 0
  {
    CompareSamePrefix(['-'], a, b);
  }

  lemma NonNegativeNotBelow(n: nat, w: nat, low: string, y: string)
    requires w >= 1 && low != [] && low[0] == '-'
    ensures Compare(low, Padded(n, w) + y) == -1
  {
    PaddedStarts(n, w);
    FirstDecides(low, Padded(n, w) + y);
  }

  lemma NegativeNotBelow(n: nat, w: nat, x: string)
    requires w >= 3 && n >= 1
    ensures Compare(LowestText(w) + ['-'], (['-'] + Padded(n, w - 1)) + (['-'] + x)) <= 0
  {
    LowestAsPadded(w);
    assert (['-'] + Padded(n, w - 1)) + (['-'] + x) == ['-'] + (Padded(n, w - 1) + (['-'] + x));
    PaddedOneIsLowest(n, w - 1, x);
    BothAfterMinus(LowestText(w) + ['-'], (['-'] + Padded(n, w - 1)) + (['-'] + x),
                   Padded(1, w - 1) + ['-'], Padded(n, w - 1) + (['-'] + x));
  }

  /** No number, whatever its length and whatever follows, has a text below that of -1. */
  lemma NothingBelowLowest(n: int, w: nat, x: string)
    requires w >= 3
    ensures Compare(LowestText(w) + ['-'], Signed(n, w) + (['-'] + x)) <= 0
  {
    if n >= 0 {
      NonNegativeNotBelow(n, w, LowestText(w) + ['-'], ['-'] + x);
    } else {
      NegativeNotBelow(-n, w, x);
    }
  }
}
