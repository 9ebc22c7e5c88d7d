/** Masking of values in log messages.  A value is a decoded text; which characters are alphanumeric is
    g_unichar_isalnum's to say, and only that '#' and the terminator are not is used here. */
module LogMask {

  type Alnum = char -> bool

  const END: char := '\0'

  predicate Proper(alnum: Alnum) { !alnum('#') && !alnum(END) }

  /** A value as the caller passes it. */
  datatype Value = Missing | NotUtf8(bytes: string) | Decoded(text: string)

  // ---- by runs: what a reader expects ----

  /** How many alphanumeric characters s starts with. */
  function RunLength(alnum: Alnum, s: string): (n: nat)
    ensures n <= |s|
    ensures forall k :: 0 <= k < n ==> alnum(s[k])
    ensures n < |s| ==> !alnum(s[n])
  {
    if s == [] || !alnum(s[0]) then 0 else 1 + RunLength(alnum, s[1..])
  }

  /** A run keeps its first and last character. */
  function MaskRun(run: string): (r: string)
    ensures |r| == |run|
  {
    seq(|run|, k requires 0 <= k < |run| => if k == 0 || k == |run| - 1 then run[k] else '#')
  }

  /** Masks each maximal run of alphanumeric characters and keeps the rest. */
  function MaskRuns(alnum: Alnum, s: string): (r: string)
    ensures |r| == |s|
    decreases |s|
  {
    if s == [] then []
    else if !alnum(s[0]) then [s[0]] + MaskRuns(alnum, s[1..])
    else
      var n := RunLength(alnum, s);
      MaskRun(s[..n]) + MaskRuns(alnum, s[n..])
  }

  // ---- by a sliding window: what the loop does ----

  /** The character is kept: it is no alphanumeric, or a neighbour is not. */
  predicate Kept(alnum: Alnum, s: string, k: nat)
    requires k < |s|
  {
    !alnum(s[k]) || k == 0 || !alnum(s[k - 1]) || k + 1 == |s| || !alnum(s[k + 1])
  }

  function Mask(alnum: Alnum, s: string): (r: string)
    ensures |r| == |s|
  {
    seq(|s|, k requires 0 <= k < |s| => if Kept(alnum, s, k) then s[k] else '#')
  }

  /** Cutting a text where a non-alphanumeric character begins or ends does not change what is kept. */
  lemma MaskSplits(alnum: Alnum, s: string, n: nat)
    requires n <= |s| && (0 < n < |s| ==> !alnum(s[n - 1]) || !alnum(s[n]))
    ensures Mask(alnum, s) == Mask(alnum, s[..n]) + Mask(alnum, s[n..])
  {
    var a, b := s[..n], s[n..];
    forall k | 0 <= k < |s| ensures Mask(alnum, s)[k] == (Mask(alnum, a) + Mask(alnum, b))[k] {
      if k < n {
        assert Kept(alnum, s, k) <==> Kept(alnum, a, k);
      } else {
        assert s[k] == b[k - n];
        assert Kept(alnum, s, k) <==> Kept(alnum, b, k - n);
      }
    }
  }

  /** The sliding window masks exactly by maximal runs. */
  lemma {:induction false} WindowIsRuns(alnum: Alnum, s: string)
    ensures Mask(alnum, s) == MaskRuns(alnum, s)
    decreases |s|
  {
    if s != [] {
      if !alnum(s[0]) {
        MaskSplits(alnum, s, 1);
        assert Mask(alnum, s[..1]) == [s[0]];
        WindowIsRuns(alnum, s[1..]);
      } else {
        var n := RunLength(alnum, s);
        MaskSplits(alnum, s, n);
        assert Mask(alnum, s[..n]) == MaskRun(s[..n]);
        WindowIsRuns(alnum, s[n..]);
      }
    }
  }

  /** i..j is a maximal run of alphanumeric characters. */
  ghost predicate MaximalRun(alnum: Alnum, s: string, i: int, j: int) {
    && 0 <= i < j <= |s|
    && (forall k :: i <= k < j ==> alnum(s[k]))
    && (i == 0 || !alnum(s[i - 1])) && (j == |s| || !alnum(s[j]))
  }

  /** What the output shows of a maximal run, and that it shows everything else. */
  lemma MaskByPosition(alnum: Alnum, s: string, i: int, j: int)
    requires MaximalRun(alnum, s, i, j)
    ensures var m := Mask(alnum, s);
      && m[i] == s[i] && m[j - 1] == s[j - 1]
      && (forall k :: i < k < j - 1 ==> m[k] == '#')
      && (forall k :: 0 <= k < |s| && !alnum(s[k]) ==> m[k] == s[k])
  {
  }

  /** Every alphanumeric character lies in a maximal run. */
  lemma RunAround(alnum: Alnum, s: string, k: nat) returns (i: int, j: int)
    requires k < |s| && alnum(s[k])
    ensures MaximalRun(alnum, s, i, j) && i <= k < j
  {
    i, j := k, k + 1;
    while i > 0 && alnum(s[i - 1])
      invariant 0 <= i <= k && forall x :: i <= x <= k ==> alnum(s[x])
    {
      i := i - 1;
    }
    while j < |s| && alnum(s[j])
      invariant k < j <= |s| && forall x :: i <= x < j ==> alnum(s[x])
    {
      j := j + 1;
    }
  }

  /** Masking a masked text changes nothing. */
  lemma MaskTwice(alnum: Alnum, s: string)
    requires Proper(alnum)
    ensures Mask(alnum, Mask(alnum, s)) == Mask(alnum, s)
  {
    var m := Mask(alnum, s);
    forall k | 0 <= k < |s| ensures Mask(alnum, m)[k] == m[k] {
      if alnum(m[k]) {
        assert Kept(alnum, s, k);
        assert k > 0 && !alnum(s[k - 1]) ==> m[k - 1] == s[k - 1];
        assert k + 1 < |s| && !alnum(s[k + 1]) ==> m[k + 1] == s[k + 1];
      }
    }
  }

  /** The alphanumeric characters are at the same places. */
  ghost predicate SameShape(alnum: Alnum, s: string, t: string) {
    |s| == |t| && forall k :: 0 <= k < |s| ==> (alnum(s[k]) <==> alnum(t[k]))
  }

  /** The characters that are kept of s are the same in t. */
  ghost predicate SameEnds(alnum: Alnum, s: string, t: string) {
    |s| == |t| && forall k :: 0 <= k < |s| && Kept(alnum, s, k) ==> s[k] == t[k]
  }

  lemma SameShapeKeepsSame(alnum: Alnum, s: string, t: string, k: nat)
    requires SameShape(alnum, s, t) && k < |s|
    ensures Kept(alnum, s, k) <==> Kept(alnum, t, k)
  {
  }

  /** Values that agree on the shape of their runs, the ends of the runs and the separators look alike. */
  lemma LookAlike(alnum: Alnum, s: string, t: string)
    requires SameShape(alnum, s, t) && SameEnds(alnum, s, t)
    ensures Mask(alnum, s) == Mask(alnum, t)
  {
    forall k | 0 <= k < |s| ensures Mask(alnum, s)[k] == Mask(alnum, t)[k] {
      SameShapeKeepsSame(alnum, s, t, k);
    }
  }

  /** And nothing else does, for values without '#': the output tells exactly that much. */
  lemma LookAlikeIff(alnum: Alnum, s: string, t: string)
    requires Proper(alnum) && '#' !in s && '#' !in t
    ensures Mask(alnum, s) == Mask(alnum, t) <==> SameShape(alnum, s, t) && SameEnds(alnum, s, t)
  {
    if Mask(alnum, s) == Mask(alnum, t) {
      var m := Mask(alnum, s);
      assert |s| == |m| == |t|;
      forall k | 0 <= k < |s|
        ensures (alnum(s[k]) <==> alnum(t[k])) && (Kept(alnum, s, k) ==> s[k] == t[k])
      {
        assert Mask(alnum, t)[k] == m[k];
        assert s[k] != '#' && t[k] != '#';
        assert Kept(alnum, s, k) <==> m[k] != '#';
        assert Kept(alnum, t, k) <==> m[k] != '#';
      }
    } else if SameShape(alnum, s, t) && SameEnds(alnum, s, t) {
      LookAlike(alnum, s, t);
    }
  }

  /** A value that spells a mask looks like the value it masks. */
  lemma HashWitness(alnum: Alnum)
    requires Proper(alnum) && alnum('a') && alnum('b') && alnum('c')
    ensures Mask(alnum, ['a', 'b', 'c']) == Mask(alnum, ['a', '#', 'c']) && !SameShape(alnum, ['a', 'b', 'c'], ['a', '#', 'c'])
  {
    var s, t := ['a', 'b', 'c'], ['a', '#', 'c'];
    assert s[1] == 'b' && t[1] == '#';
    assert Mask(alnum, s) == t && Mask(alnum, t) == t;
  }

  // ---- the function as written ----

  /** The text with the inside of each maximal run of alphanumeric characters hidden, and nothing else. */
  ghost predicate Masks(alnum: Alnum, text: string, shown: string) {
    && |shown| == |text|
    && (forall k :: 0 <= k < |text| && !alnum(text[k]) ==> shown[k] == text[k])
    && (forall i, j :: MaximalRun(alnum, text, i, j) ==>
          shown[i] == text[i] && shown[j - 1] == text[j - 1] && forall k :: i < k < j - 1 ==> shown[k] == '#')
  }

  lemma MaskMasks(alnum: Alnum, text: string)
    ensures Masks(alnum, text, Mask(alnum, text))
  {
    forall i, j | MaximalRun(alnum, text, i, j)
      ensures var m := Mask(alnum, text);
        m[i] == text[i] && m[j - 1] == text[j - 1] && forall k :: i < k < j - 1 ==> m[k] == '#'
    {
      MaskByPosition(alnum, text, i, j);
    }
  }

  /** That leaves no choice. */
  lemma MasksOneWay(alnum: Alnum, text: string, shown: string)
    ensures Masks(alnum, text, shown) <==> shown == Mask(alnum, text)
  {
    MaskMasks(alnum, text);
    if Masks(alnum, text, shown) {
      var m := Mask(alnum, text);
      forall k | 0 <= k < |text| ensures shown[k] == m[k] {
        if alnum(text[k]) {
          var i, j := RunAround(alnum, text, k);
          assert MaximalRun(alnum, text, i, j);
        }
      }
    }
  }

  lemma TailOfAppend(s: string, tail: string)
    ensures s <= s + tail && (s + tail)[|s|..] == tail
  {
  }

  class Log {
    var str: string

    /** cc_log_anonymize_value: an empty value adds nothing.  Otherwise exactly one space separates a value
        from a message that is not empty and does not end in one; then comes the value itself, or six stars
        for an invalid text, or the masked text. */
    method AnonymizeValue(alnum: Alnum, noAnonymize: bool, value: Value)
      requires Proper(alnum)
      modifies this
      ensures value == Missing || value == Decoded("") || value == NotUtf8("") ==> str == old(str)
      ensures value != Missing && value != Decoded("") && value != NotUtf8("") ==>
        var before := old(str) + if old(str) != [] && old(str)[|old(str)| - 1] != ' ' then [' '] else [];
        && before <= str
        && (noAnonymize ==> str[|before|..] == if value.Decoded? then value.text else value.bytes)
        && (!noAnonymize && value.NotUtf8? ==> str[|before|..] == "******")
        && (!noAnonymize && value.Decoded? ==> Masks(alnum, value.text, str[|before|..]))
    {
      if value == Missing || value == Decoded("") || value == NotUtf8("") {
        return;
      }
      if |str| > 0 && str[|str| - 1] != ' ' {
        str := str + [' '];
      }
      ghost var before := str;
      if noAnonymize {
        str := str + (if value.Decoded? then value.text else value.bytes);
        TailOfAppend(before, if value.Decoded? then value.text else value.bytes);
        return;
      }
      if value.NotUtf8? {
        str := str + "******";
        TailOfAppend(before, "******");
        return;
      }
      AppendMasked(alnum, value.text);
      MaskMasks(alnum, value.text);
      TailOfAppend(before, Mask(alnum, value.text));
    }

    /** The loop with the previous, the current and the next character. */
    method AppendMasked(alnum: Alnum, text: string)
      requires Proper(alnum) && text != ""
      modifies this
      ensures str == old(str) + Mask(alnum, text)
    {
      var c := text[0];
      str := str + [c];
      var i := 1;
      ghost var masked := [c];
      while i < |text|
        invariant 1 <= i <= |text| && c == text[i - 1] && str == old(str) + masked
        invariant |masked| == i && forall k :: 0 <= k < i ==> masked[k] == Mask(alnum, text)[k]
      {
        var previous := c;
        c := text[i];
        i := i + 1;
        var next := if i < |text| then text[i] else END;
        var shown := if !alnum(c) || !alnum(previous) || !alnum(next) then c else '#';
        str := str + [shown];
        assert Kept(alnum, text, i - 1) <==> !alnum(c) || !alnum(previous) || !alnum(next);
        assert old(str) + masked + [shown] == old(str) + (masked + [shown]);
        masked := masked + [shown];
      }
      assert masked == Mask(alnum, text);
    }
  }
}
