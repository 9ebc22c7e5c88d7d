/** C strings as sequences of characters: strcmp, prefixes and substring search.
    A character stands for one byte, so the order on characters is the byte order
    that strcmp uses. */
module Text {

  /** A pointer that may be NULL. */
  datatype Option<+T> = None | Some(value: T)

  /** The sign of strcmp: -1, 0 or 1. */
  function Compare(a: string, b: string): (c: int)
    ensures -1 <= c <= 1
  {
    if a == [] || b == [] then
      (if a == b then 0 else if a == [] then -1 else 1)
    else if a[0] < b[0] then -1
    else if a[0] > b[0] then 1
    else Compare(a[1..], b[1..])
  }

  /** 1 for true, 0 for false. */
  function Bit(b: bool): nat { if b then 1 else 0 }

  /** strstr(hay, needle) != NULL. */
  predicate Contains(hay: string, needle: string) {
    needle <= hay || (hay != [] && Contains(hay[1..], needle))
  }

  ghost predicate OccursAt(hay: string, needle: string, i: int) {
    0 <= i <= |hay| && needle <= hay[i..]
  }

  lemma {:induction false} ContainsAt(hay: string, needle: string, i: nat)
    requires OccursAt(hay, needle, i)
    ensures Contains(hay, needle)
    decreases i
  {
    if i > 0 {
      assert hay[1..][i - 1..] == hay[i..];
      ContainsAt(hay[1..], needle, i - 1);
    }
  }

  lemma {:induction false} ContainsSomewhere(hay: string, needle: string) returns (i: nat)
    requires Contains(hay, needle)
    ensures OccursAt(hay, needle, i)
  {
    if needle <= hay {
      i := 0;
    } else {
      i := ContainsSomewhere(hay[1..], needle);
      assert hay[1..][i..] == hay[i + 1..];
      i := i + 1;
    }
  }

  lemma {:induction false} CompareZero(a: string, b: string)
    ensures Compare(a, b) == 0 <==> a == b
  {
    if a != [] && b != [] {
      CompareZero(a[1..], b[1..]);
      assert a == [a[0]] + a[1..] && b == [b[0]] + b[1..];
    }
  }

  lemma {:induction false} CompareFlip(a: string, b: string)
    ensures Compare(b, a) == -Compare(a, b)
  {
    if a != [] && b != [] {
      CompareFlip(a[1..], b[1..]);
    }
  }

  lemma {:induction false} CompareTransitive(a: string, b: string, c: string)
    requires Compare(a, b) <= 0 && Compare(b, c) <= 0
    ensures Compare(a, c) <= 0
  {
    if a != [] && b != [] && c != [] && a[0] == b[0] == c[0] {
      CompareTransitive(a[1..], b[1..], c[1..]);
    }
  }

  /** A common prefix does not influence the comparison. */
  lemma {:induction false} CompareSamePrefix(p: string, a: string, b: string)
    ensures Compare(p + a, p + b) == Compare(a, b)
  {
    if p == [] {
      assert p + a == a && p + b == b;
    } else {
      CompareSamePrefix(p[1..], a, b);
      assert (p + a)[1..] == p[1..] + a && (p + b)[1..] == p[1..] + b;
    }
  }

  /** Two strings of which neither is a prefix of the other decide the comparison of all their extensions. */
  lemma {:induction false} CompareDecided(a: string, b: string, x: string, y: string)
    requires !(a <= b) && !(b <= a)
    ensures Compare(a + x, b + y) == Compare(a, b) != 0
  {
    assert a != [] && b != [];
    if a[0] == b[0] {
      assert a == [a[0]] + a[1..] && b == [b[0]] + b[1..];
      CompareDecided(a[1..], b[1..], x, y);
      assert (a + x)[1..] == a[1..] + x && (b + y)[1..] == b[1..] + y;
    }
  }

  /** Strings of one length are either equal or neither is a prefix of the other. */
  lemma CompareSameLength(a: string, b: string, x: string, y: string)
    requires |a| == |b|
    ensures Compare(a + x, b + y) == if a == b then Compare(x, y) else Compare(a, b)
  {
    if a == b {
      CompareSamePrefix(a, x, y);
    } else {
      CompareDecided(a, b, x, y);
    }
  }
}
