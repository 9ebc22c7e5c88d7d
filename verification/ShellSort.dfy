/** The order of search results: the shell model's comparator, the store it keeps sorted, and the
    search provider's result list.  How GtkListStore sorts is foreign; what matters is that it keeps
    its rows in some order that is sorted for the comparator. */
module ShellSort {
  import opened Text
  import opened SearchMatch

  // ---- the comparator as a reference: one rank vector per row ----

  /** The pairs of a term and a keyword that contains it. */
  ghost function Hits(keywords: seq<string>, terms: seq<string>): set<(int, int)> {
    set p: int, q: int | 0 <= p < |terms| && 0 <= q < |keywords| && Contains(keywords[q], terms[p]) :: (p, q)
  }

  /** Those that come before (i, j). */

  ghost function HitsBefore(keywords: seq<string>, terms: seq<string>, i: int, j: int): set<(int, int)>
  {
    set p: int, q: int | 0 <= p < |terms| && 0 <= q < |keywords| && HitBefore(keywords, terms, i, j, p, q) :: (p, q)
  }

  /** Keyword q contains term p, and the pair comes before (i, j). */
  ghost predicate HitBefore(keywords: seq<string>, terms: seq<string>, i: int, j: int, p: int, q: int)
    requires 0 <= p < |terms| && 0 <= q < |keywords|
  {
    (p < i || (p == i && q < j)) && Contains(keywords[q], terms[p])
  }

  /** Which terms the name contains. */
  function NameBits(r: Row, terms: seq<string>): seq<nat> {
    seq(|terms|, i requires 0 <= i < |terms| => Bit(Contains(r.name, terms[i])))
  }

  ghost function DescriptionHits(r: Row, terms: seq<string>): nat {
    if r.description == None then 0 else |Hits(Split(r.description.value), terms)|
  }

  /** What a row is ranked by, most significant first; more is better. */
  ghost function Rank(r: Row, terms: seq<string>): seq<nat> {
    NameBits(r, terms)
    + [|Hits(r.keywords, terms)|, Bit(r.description.Some?), DescriptionHits(r, terms)]
  }

  /** The lexicographic comparison of two rank vectors, the better one first. */
  function CompareRanks(a: seq<nat>, b: seq<nat>): (c: int)
    ensures -1 <= c <= 1
  {
    if a == [] || b == [] then 0
    else if a[0] > b[0] then -1
    else if a[0] < b[0] then 1
    else CompareRanks(a[1..], b[1..])
  }

  /** The order of rows for a list of terms: by rank, then by name; by name alone without terms. */
  ghost function Order(a: Row, b: Row, terms: Option<seq<string>>): int {
    if terms == None || terms.value == [] then Compare(a.name, b.name)
    else
      var c := CompareRanks(Rank(a, terms.value), Rank(b, terms.value));
      if c != 0 then c else Compare(a.name, b.name)
  }

  // ---- it is a total preorder, and total on distinct names ----

  lemma {:induction false} CompareRanksFlip(a: seq<nat>, b: seq<nat>)
    ensures CompareRanks(b, a) == -CompareRanks(a, b)
  {
    if a != [] && b != [] && a[0] == b[0] {
      CompareRanksFlip(a[1..], b[1..]);
    }
  }

  lemma {:induction false} CompareRanksTransitive(a: seq<nat>, b: seq<nat>, c: seq<nat>)
    requires |a| == |b| == |c| && CompareRanks(a, b) <= 0 && CompareRanks(b, c) <= 0
    ensures CompareRanks(a, c) <= 0
    ensures CompareRanks(a, c) == 0 ==> CompareRanks(a, b) == 0 == CompareRanks(b, c)
  {
    if a != [] && a[0] == b[0] == c[0] {
      CompareRanksTransitive(a[1..], b[1..], c[1..]);
    }
  }

  lemma {:induction false} CompareRanksZero(a: seq<nat>, b: seq<nat>)
    requires |a| == |b|
    ensures CompareRanks(a, b) == 0 <==> a == b
  {
    if a != [] {
      CompareRanksZero(a[1..], b[1..]);
      assert a == [a[0]] + a[1..] && b == [b[0]] + b[1..];
    }
  }

  lemma OrderFlip(a: Row, b: Row, terms: Option<seq<string>>)
    ensures Order(b, a, terms) == -Order(a, b, terms)
  {
    CompareFlip(a.name, b.name);
    if terms.Some? {
      CompareRanksFlip(Rank(a, terms.value), Rank(b, terms.value));
    }
  }

  lemma OrderTransitive(a: Row, b: Row, c: Row, terms: Option<seq<string>>)
    requires Order(a, b, terms) <= 0 && Order(b, c, terms) <= 0
    ensures Order(a, c, terms) <= 0
  {
    if terms == None || terms.value == [] {
      CompareTransitive(a.name, b.name, c.name);
    } else {
      CompareRanksTransitive(Rank(a, terms.value), Rank(b, terms.value), Rank(c, terms.value));
      if CompareRanks(Rank(a, terms.value), Rank(c, terms.value)) == 0 {
        CompareTransitive(a.name, b.name, c.name);
      }
    }
  }

  /** Two rows tie exactly when they have the same name, the same rank and hence no order of their own. */
  lemma OrderTies(a: Row, b: Row, terms: Option<seq<string>>)
    ensures Order(a, b, terms) == 0 <==>
            a.name == b.name && (terms.Some? && terms.value != [] ==> Rank(a, terms.value) == Rank(b, terms.value))
  {
    CompareZero(a.name, b.name);
    if terms.Some? {
      CompareRanksZero(Rank(a, terms.value), Rank(b, terms.value));
    }
  }

  // ---- the comparator as written ----

  /** count_matches */
  method CountMatches(keywords: seq<string>, terms: seq<string>) returns (c: nat)
    ensures c == |Hits(keywords, terms)|
    ensures c == |set p: int, q: int | 0 <= p < |terms| && 0 <= q < |keywords|
                                       && Contains(keywords[q], terms[p]) :: (p, q)|
  {
    c := 0;
    var i := 0;
    assert HitsBefore(keywords, terms, 0, 0) == {};
    while i < |terms|
      invariant 0 <= i <= |terms| && c == |HitsBefore(keywords, terms, i, 0)|
    {
      var j := 0;
      while j < |keywords|
        invariant 0 <= j <= |keywords| && c == |HitsBefore(keywords, terms, i, j)|
      {
        NextHit(keywords, terms, i, j);
        if Contains(keywords[j], terms[i]) {
          c := c + 1;
        }
        j := j + 1;
      }
      assert HitsBefore(keywords, terms, i, |keywords|) == HitsBefore(keywords, terms, i + 1, 0);
      i := i + 1;
    }
    assert HitsBefore(keywords, terms, |terms|, 0) == Hits(keywords, terms);
    assert Hits(keywords, terms)
        == set p: int, q: int | 0 <= p < |terms| && 0 <= q < |keywords| && Contains(keywords[q], terms[p]) :: (p, q);
  }

  lemma NextHit(keywords: seq<string>, terms: seq<string>, i: nat, j: nat)
    requires i < |terms| && j < |keywords|
    ensures |HitsBefore(keywords, terms, i, j + 1)|
            == |HitsBefore(keywords, terms, i, j)| + Bit(Contains(keywords[j], terms[i]))
  {
    var before, after := HitsBefore(keywords, terms, i, j), HitsBefore(keywords, terms, i, j + 1);
    forall p: int, q: int | 0 <= p < |terms| && 0 <= q < |keywords|
      ensures HitBefore(keywords, terms, i, j + 1, p, q) <==>
              HitBefore(keywords, terms, i, j, p, q) || (p == i && q == j && Contains(keywords[j], terms[i]))
    {
    }
    if Contains(keywords[j], terms[i]) {
      assert (i, j) !in before;
      assert after == before + {(i, j)};
    } else {
      assert after == before;
    }
  }

  /** sort_by_name_with_terms */
  method SortByNameWithTerms(a: Row, b: Row, terms: seq<string>) returns (c: int)
    ensures c == CompareRanks(NameBits(a, terms), NameBits(b, terms))
  {
    var i := 0;
    var va, vb := NameBits(a, terms), NameBits(b, terms);
    assert va[0..] == va && vb[0..] == vb;
    while i < |terms|
      invariant 0 <= i <= |terms| && CompareRanks(va, vb) == CompareRanks(va[i..], vb[i..])
    {
      var aMatch := Contains(a.name, terms[i]);
      var bMatch := Contains(b.name, terms[i]);
      assert va[i..][0] == Bit(aMatch) && vb[i..][0] == Bit(bMatch);
      assert va[i..][1..] == va[i + 1..] && vb[i..][1..] == vb[i + 1..];
      if aMatch && !bMatch {
        return -1;
      } else if !aMatch && bMatch {
        return 1;
      }
      i := i + 1;
    }
    return 0;
  }

  /** sort_by_keywords_with_terms */
  method SortByKeywordsWithTerms(a: Row, b: Row, terms: seq<string>) returns (c: int)
    ensures c == CompareRanks([|Hits(a.keywords, terms)|], [|Hits(b.keywords, terms)|])
  {
    var aMatches := CountMatches(a.keywords, terms);
    var bMatches := CountMatches(b.keywords, terms);
    c := if aMatches > bMatches then -1 else if aMatches < bMatches then 1 else 0;
  }

  lemma ComparePair(x: nat, y: nat, u: nat, v: nat)
    ensures CompareRanks([x, y], [u, v]) == if x > u then -1 else if x < u then 1
                                            else if y > v then -1 else if y < v then 1 else 0
  {
    assert [x, y][1..] == [y] && [u, v][1..] == [v];
    assert CompareRanks([y], [v]) == if y > v then -1 else if y < v then 1 else 0;
  }

  /** sort_by_description_with_terms */
  method SortByDescriptionWithTerms(a: Row, b: Row, terms: seq<string>) returns (c: int)
    ensures c == CompareRanks([Bit(a.description.Some?), DescriptionHits(a, terms)],
                              [Bit(b.description.Some?), DescriptionHits(b, terms)])
  {
    ComparePair(Bit(a.description.Some?), DescriptionHits(a, terms), Bit(b.description.Some?), DescriptionHits(b, terms));
    if a.description.Some? && b.description == None {
      return -1;
    } else if a.description == None && b.description.Some? {
      return 1;
    } else if a.description == None && b.description == None {
      return 0;
    }
    var aMatches := CountMatches(Split(a.description.value), terms);
    var bMatches := CountMatches(Split(b.description.value), terms);
    c := if aMatches > bMatches then -1 else if aMatches < bMatches then 1 else 0;
  }

  lemma {:induction false} CompareRanksAppend(a: seq<nat>, b: seq<nat>, x: seq<nat>, y: seq<nat>)
    requires |a| == |b|
    ensures CompareRanks(a + x, b + y) == if CompareRanks(a, b) != 0 then CompareRanks(a, b) else CompareRanks(x, y)
  {
    if a == [] {
      assert a + x == x && b + y == y;
    } else {
      assert (a + x)[1..] == a[1..] + x && (b + y)[1..] == b[1..] + y;
      CompareRanksAppend(a[1..], b[1..], x, y);
    }
  }

  /** The staged comparison is the lexicographic one. */
  lemma StagesAreRank(a: Row, b: Row, terms: seq<string>)
    ensures CompareRanks(Rank(a, terms), Rank(b, terms)) ==
      var byName := CompareRanks(NameBits(a, terms), NameBits(b, terms));
      var byKeywords := CompareRanks([|Hits(a.keywords, terms)|], [|Hits(b.keywords, terms)|]);
      if byName != 0 then byName
      else if byKeywords != 0 then byKeywords
      else CompareRanks([Bit(a.description.Some?), DescriptionHits(a, terms)],
                        [Bit(b.description.Some?), DescriptionHits(b, terms)])
  {
    var ka, kb: seq<nat> := [|Hits(a.keywords, terms)|], [|Hits(b.keywords, terms)|];
    var da: seq<nat> := [Bit(a.description.Some?), DescriptionHits(a, terms)];
    var db: seq<nat> := [Bit(b.description.Some?), DescriptionHits(b, terms)];
    assert Rank(a, terms) == NameBits(a, terms) + (ka + da);
    assert Rank(b, terms) == NameBits(b, terms) + (kb + db);
    CompareRanksAppend(NameBits(a, terms), NameBits(b, terms), ka + da, kb + db);
    CompareRanksAppend(ka, kb, da, db);
  }

  // ---- what the order prefers ----

  /** The names contain the same terms. */
  ghost predicate NamesAgree(a: string, b: string, terms: seq<string>) {
    forall i :: 0 <= i < |terms| ==> (Contains(a, terms[i]) <==> Contains(b, terms[i]))
  }

  lemma {:induction false} FirstRankDecides(a: seq<nat>, b: seq<nat>, i: nat)
    requires i < |a| == |b| && a[..i] == b[..i] && a[i] != b[i]
    ensures CompareRanks(a, b) == if a[i] > b[i] then -1 else 1
    decreases i
  {
    if i > 0 {
      assert a[0] == a[..i][0] && b[0] == b[..i][0];
      assert a[1..][..i - 1] == a[..i][1..] && b[1..][..i - 1] == b[..i][1..];
      FirstRankDecides(a[1..], b[1..], i - 1);
    }
  }

  lemma OneRank(x: nat, y: nat)
    ensures CompareRanks([x], [y]) == if x > y then -1 else if x < y then 1 else 0
  {
    assert [x][1..] == [] && [y][1..] == [];
  }

  /** The first term that only one name contains puts the row with that name first. */
  lemma FirstNameMatchDecides(a: Row, b: Row, terms: seq<string>, i: nat)
    requires i < |terms| && NamesAgree(a.name, b.name, terms[..i])
    requires Contains(a.name, terms[i]) && !Contains(b.name, terms[i])
    ensures Order(a, b, Some(terms)) == -1 && Order(b, a, Some(terms)) == 1
  {
    var va, vb := NameBits(a, terms), NameBits(b, terms);
    forall j | 0 <= j < i ensures va[..i][j] == vb[..i][j] {
      assert terms[..i][j] == terms[j];
    }
    FirstRankDecides(va, vb, i);
    StagesAreRank(a, b, terms);
    OrderFlip(a, b, Some(terms));
  }

  lemma NamesAgreeBits(a: Row, b: Row, terms: seq<string>)
    requires NamesAgree(a.name, b.name, terms)
    ensures CompareRanks(NameBits(a, terms), NameBits(b, terms)) == 0
  {
    assert NameBits(a, terms) == NameBits(b, terms);
    CompareRanksZero(NameBits(a, terms), NameBits(b, terms));
  }

  /** When the names contain the same terms: more pairs of a term and a keyword come first; then a description
      before none; then more pairs of a term and a word of the description; then the lesser name. */
  lemma ThenKeywordsDecide(a: Row, b: Row, terms: seq<string>)
    requires terms != [] && NamesAgree(a.name, b.name, terms)
    ensures var c := Order(a, b, Some(terms)); var ka, kb := |Hits(a.keywords, terms)|, |Hits(b.keywords, terms)|;
      && (ka > kb ==> c == -1)
      && (ka < kb ==> c == 1)
      && (ka == kb && a.description.Some? && b.description == None ==> c == -1)
      && (ka == kb && a.description == None && b.description.Some? ==> c == 1)
      && (ka == kb && a.description == None && b.description == None ==> c == Compare(a.name, b.name))
      && (ka == kb && a.description.Some? && b.description.Some? ==>
            var da, db := |Hits(Split(a.description.value), terms)|, |Hits(Split(b.description.value), terms)|;
            c == if da > db then -1 else if da < db then 1 else Compare(a.name, b.name))
  {
    NamesAgreeBits(a, b, terms);
    StagesAreRank(a, b, terms);
    OneRank(|Hits(a.keywords, terms)|, |Hits(b.keywords, terms)|);
    ComparePair(Bit(a.description.Some?), DescriptionHits(a, terms),
                Bit(b.description.Some?), DescriptionHits(b, terms));
  }

  /** cc_shell_model_sort_func, with sort_with_terms and sort_by_name */
  method SortFunc(a: Row, b: Row, terms: Option<seq<string>>) returns (c: int)
    ensures c == Order(a, b, terms)
    ensures terms == None || terms.value == [] ==> c == Compare(a.name, b.name)
    ensures terms.Some? ==> forall i: nat ::
      (i < |terms.value| && NamesAgree(a.name, b.name, terms.value[..i])
       && Contains(a.name, terms.value[i]) && !Contains(b.name, terms.value[i])) ==> c == -1
    ensures terms.Some? ==> forall i: nat ::
      (i < |terms.value| && NamesAgree(a.name, b.name, terms.value[..i])
       && !Contains(a.name, terms.value[i]) && Contains(b.name, terms.value[i])) ==> c == 1
    ensures terms.Some? && terms.value != [] && NamesAgree(a.name, b.name, terms.value) ==>
      var ka, kb := |Hits(a.keywords, terms.value)|, |Hits(b.keywords, terms.value)|;
      c == if ka > kb then -1 else if ka < kb then 1
           else if a.description.Some? && b.description == None then -1
           else if a.description == None && b.description.Some? then 1
           else if a.description == None then Compare(a.name, b.name)
           else
             var da := |Hits(Split(a.description.value), terms.value)|;
             var db := |Hits(Split(b.description.value), terms.value)|;
             if da > db then -1 else if da < db then 1 else Compare(a.name, b.name)
  {
    if terms == None || |terms.value| == 0 {
      return Compare(a.name, b.name);
    }
    OrderPrefers(a, b, terms.value);
    c := SortWithTerms(a, b, terms.value);
  }

  lemma OrderPrefers(a: Row, b: Row, terms: seq<string>)
    requires terms != []
    ensures forall i: nat ::
      (i < |terms| && NamesAgree(a.name, b.name, terms[..i])
       && Contains(a.name, terms[i]) && !Contains(b.name, terms[i])) ==> Order(a, b, Some(terms)) == -1
    ensures forall i: nat ::
      (i < |terms| && NamesAgree(a.name, b.name, terms[..i])
       && !Contains(a.name, terms[i]) && Contains(b.name, terms[i])) ==> Order(a, b, Some(terms)) == 1
    ensures NamesAgree(a.name, b.name, terms) ==>
      var ka, kb := |Hits(a.keywords, terms)|, |Hits(b.keywords, terms)|;
      Order(a, b, Some(terms)) ==
           if ka > kb then -1 else if ka < kb then 1
           else if a.description.Some? && b.description == None then -1
           else if a.description == None && b.description.Some? then 1
           else if a.description == None then Compare(a.name, b.name)
           else
             var da := |Hits(Split(a.description.value), terms)|;
             var db := |Hits(Split(b.description.value), terms)|;
             if da > db then -1 else if da < db then 1 else Compare(a.name, b.name)
  {
    forall i: nat | i < |terms| && NamesAgree(a.name, b.name, terms[..i])
                    && Contains(a.name, terms[i]) && !Contains(b.name, terms[i])
      ensures Order(a, b, Some(terms)) == -1
    {
      FirstNameMatchDecides(a, b, terms, i);
    }
    forall i: nat | i < |terms| && NamesAgree(a.name, b.name, terms[..i])
                    && !Contains(a.name, terms[i]) && Contains(b.name, terms[i])
      ensures Order(a, b, Some(terms)) == 1
    {
      FirstNameMatchDecides(b, a, terms, i);
    }
    if NamesAgree(a.name, b.name, terms) {
      ThenKeywordsDecide(a, b, terms);
    }
  }

  /** sort_with_terms */
  method SortWithTerms(a: Row, b: Row, terms: seq<string>) returns (c: int)
    requires terms != []
    ensures c == Order(a, b, Some(terms))
  {
    StagesAreRank(a, b, terms);
    c := SortByNameWithTerms(a, b, terms);
    if c != 0 {
      return;
    }
    c := SortByKeywordsWithTerms(a, b, terms);
    if c != 0 {
      return;
    }
    c := SortByDescriptionWithTerms(a, b, terms);
    if c != 0 {
      return;
    }
    c := Compare(a.name, b.name);
  }

  // ---- the sorted store ----

  ghost predicate Sorted(rows: seq<Row>, terms: Option<seq<string>>) {
    forall i, j :: 0 <= i < j < |rows| ==> Order(rows[i], rows[j], terms) <= 0
  }

  ghost predicate DistinctNames(rows: seq<Row>) {
    forall i, j :: 0 <= i < j < |rows| ==> rows[i].name != rows[j].name
  }

  lemma SameHead(a: seq<Row>, b: seq<Row>, terms: Option<seq<string>>)
    requires Sorted(a, terms) && Sorted(b, terms) && DistinctNames(a) && multiset(a) == multiset(b) && a != []
    ensures b != [] && a[0] == b[0]
  {
    assert a[0] in multiset(b);
    var k :| 0 <= k < |b| && b[k] == a[0];
    assert b[0] in multiset(a);
    var j :| 0 <= j < |a| && a[j] == b[0];
    if j > 0 && k > 0 {
      OrderFlip(a[0], a[j], terms);
      OrderTies(a[0], a[j], terms);
      assert false;
    }
  }

  /** Rows with distinct names have exactly one sorted arrangement. */
  lemma {:induction false} SortedIsUnique(a: seq<Row>, b: seq<Row>, terms: Option<seq<string>>)
    requires Sorted(a, terms) && Sorted(b, terms) && DistinctNames(a) && multiset(a) == multiset(b)
    ensures a == b
    decreases |a|
  {
    assert |a| == |multiset(a)| == |multiset(b)| == |b|;
    if a != [] {
      SameHead(a, b, terms);
      TailMultiset(a);
      TailMultiset(b);
      SortedIsUnique(a[1..], b[1..], terms);
      assert a == [a[0]] + a[1..] && b == [b[0]] + b[1..];
    }
  }

  lemma TailMultiset(a: seq<Row>)
    requires a != []
    ensures multiset(a[1..]) == multiset(a) - multiset{a[0]}
  {
    assert a == [a[0]] + a[1..];
  }

  /** Without distinct names the order can leave a choice: exactly when two different rows tie. */
  lemma TiesLeaveAChoice(a: Row, b: Row, terms: Option<seq<string>>)
    requires a != b
    ensures Sorted([a, b], terms) && Sorted([b, a], terms) <==> Order(a, b, terms) == 0
  {
    OrderFlip(a, b, terms);
    var p, q := [a, b], [b, a];
    assert p[0] == a && p[1] == b && q[0] == b && q[1] == a;
  }

  /** In a store sorted for some terms, a row whose name contains the first term stands before every row whose
      name does not. */
  lemma NameMatchesFirst(rows: seq<Row>, terms: seq<string>, i: nat, j: nat)
    requires Sorted(rows, Some(terms)) && terms != [] && i < |rows| && j < |rows|
    requires Contains(rows[i].name, terms[0]) && !Contains(rows[j].name, terms[0])
    ensures i < j
  {
    FirstNameMatchDecides(rows[i], rows[j], terms, 0);
  }

  // ---- the results ----

  /** The rows that match, in store order. */
  function Picked(rows: seq<Row>, terms: seq<string>): seq<Row> {
    if rows == [] then []
    else (if Matches(rows[0], terms) then [rows[0]] else []) + Picked(rows[1..], terms)
  }

  function IdsOf(rows: seq<Row>): seq<string> { seq(|rows|, i requires 0 <= i < |rows| => rows[i].id) }

  lemma {:induction false} PickedIsExact(rows: seq<Row>, terms: seq<string>)
    ensures forall r :: multiset(Picked(rows, terms))[r] == if Matches(r, terms) then multiset(rows)[r] else 0
  {
    if rows != [] {
      PickedIsExact(rows[1..], terms);
      assert rows == [rows[0]] + rows[1..];
    }
  }

  lemma {:induction false} PickedFrom(rows: seq<Row>, terms: seq<string>, r: Row)
    requires r in Picked(rows, terms)
    ensures r in rows && Matches(r, terms)
  {
    if !(Matches(rows[0], terms) && r == rows[0]) {
      PickedFrom(rows[1..], terms, r);
    }
  }

  lemma {:induction false} PickedSorted(rows: seq<Row>, terms: seq<string>, order: Option<seq<string>>)
    requires Sorted(rows, order)
    ensures Sorted(Picked(rows, terms), order)
  {
    if rows != [] {
      var rest := Picked(rows[1..], terms);
      PickedSorted(rows[1..], terms, order);
      forall k | 0 <= k < |rest| ensures Order(rows[0], rest[k], order) <= 0 {
        PickedFrom(rows[1..], terms, rest[k]);
        var i :| 0 <= i < |rows[1..]| && rows[1..][i] == rest[k];
        assert rows[i + 1] == rest[k];
      }
    }
  }

  /** The answer to a search does not depend on how the store came to be: for rows with distinct names
      there is one list of rows that holds exactly the matching ones in order, and it is picked from
      every store that holds these rows sorted for the terms. */
  lemma ResultsDetermined(a: seq<Row>, b: seq<Row>, terms: seq<string>)
    requires DistinctNames(a) && multiset(a) == multiset(b)
    requires Sorted(a, Some(terms)) && Sorted(b, Some(terms))
    ensures Picked(a, terms) == Picked(b, terms)
    ensures Sorted(Picked(a, terms), Some(terms))
    ensures forall r :: multiset(Picked(a, terms))[r] == if Matches(r, terms) then multiset(a)[r] else 0
  {
    SortedIsUnique(a, b, Some(terms));
    PickedSorted(a, terms, Some(terms));
    PickedIsExact(a, terms);
  }

  lemma ResultsByName(rows: seq<Row>, terms: seq<string>)
    requires Sorted(rows, Some(terms))
    ensures var p := Picked(rows, terms);
      forall i, j :: (0 <= i < |p| && 0 <= j < |p| && terms != []
                      && Contains(p[i].name, terms[0]) && !Contains(p[j].name, terms[0])) ==> i < j
  {
    var p := Picked(rows, terms);
    PickedSorted(rows, terms, Some(terms));
    forall i, j | 0 <= i < |p| && 0 <= j < |p| && terms != []
                  && Contains(p[i].name, terms[0]) && !Contains(p[j].name, terms[0])
      ensures i < j
    {
      NameMatchesFirst(p, terms, i, j);
    }
  }

  // ---- the store and the search provider as written ----

  class ShellModel {
    var rows: seq<Row>
    var sortTerms: Option<seq<string>>

    ghost predicate Valid() reads this { Sorted(rows, sortTerms) }

    constructor ()
      ensures Valid() && rows == [] && sortTerms == None
    {
      rows, sortTerms := [], None;
    }

    /** cc_shell_model_add_item: the list store puts the row where it belongs. */
    method AddItem(row: Row)
      requires Valid()
      modifies `rows
      ensures Valid() && multiset(rows) == old(multiset(rows)) + multiset{row}
    {
      var sorted := Inserted(rows, row, sortTerms);
      rows := sorted;
    }

    /** cc_shell_model_set_sort_terms: stores the terms and sorts again. */
    method SetSortTerms(terms: Option<seq<string>>)
      modifies this
      ensures Valid() && sortTerms == terms && multiset(rows) == old(multiset(rows))
    {
      sortTerms := terms;
      var sorted: seq<Row>, i := [], 0;
      while i < |rows|
        invariant 0 <= i <= |rows| && rows == old(rows) && sortTerms == terms
        invariant Sorted(sorted, terms) && multiset(sorted) == multiset(rows[..i])
      {
        assert rows[..i + 1] == rows[..i] + [rows[i]];
        sorted := Inserted(sorted, rows[i], terms);
        i := i + 1;
      }
      assert rows[..i] == rows;
      rows := sorted;
    }

    /** get_results, once the terms are folded */
    method GetResults(terms: seq<string>) returns (results: seq<string>)
      modifies this
      ensures Valid() && sortTerms == Some(terms) && multiset(rows) == old(multiset(rows))
      ensures results == IdsOf(Picked(rows, terms))
      ensures var p := Picked(rows, terms);
        forall i, j :: (0 <= i < |p| && 0 <= j < |p| && terms != []
                        && Contains(p[i].name, terms[0]) && !Contains(p[j].name, terms[0])) ==> i < j
    {
      SetSortTerms(Some(terms));
      results := CollectIds(rows, terms);
      ResultsByName(rows, terms);
    }
  }

  /** The loop of get_results over the sorted model. */
  method CollectIds(rows: seq<Row>, terms: seq<string>) returns (results: seq<string>)
    ensures results == IdsOf(Picked(rows, terms))
  {
    results := [];
    var i := 0;
    assert rows[0..] == rows;
    ghost var picked: seq<Row> := [];
    while i < |rows|
      invariant 0 <= i <= |rows| && results == IdsOf(picked)
      invariant Picked(rows, terms) == picked + Picked(rows[i..], terms)
    {
      PickedNext(rows, terms, i);
      var m := MatchesAllTerms(rows[i], terms);
      if m {
        results := results + [rows[i].id];
        picked := picked + [rows[i]];
      }
      i := i + 1;
    }
    assert Picked(rows, terms) == picked;
  }

  lemma PickedNext(rows: seq<Row>, terms: seq<string>, i: nat)
    requires i < |rows|
    ensures Picked(rows[i..], terms) == (if Matches(rows[i], terms) then [rows[i]] else []) + Picked(rows[i + 1..], terms)
  {
    assert rows[i..][0] == rows[i] && rows[i..][1..] == rows[i + 1..];
  }

  /** A sorted list with one more row, still sorted. */
  method Inserted(rows: seq<Row>, row: Row, terms: Option<seq<string>>) returns (r: seq<Row>)
    requires Sorted(rows, terms)
    ensures Sorted(r, terms) && multiset(r) == multiset(rows) + multiset{row}
  {
    var i := 0;
    while i < |rows|
      invariant 0 <= i <= |rows|
      invariant forall k :: 0 <= k < i ==> Order(rows[k], row, terms) <= 0
    {
      var c := SortFunc(rows[i], row, terms);
      if c > 0 {
        break;
      }
      i := i + 1;
    }
    r := rows[..i] + [row] + rows[i..];
    InsertionSorted(rows, row, terms, i);
    InsertionAdds(rows, row, i);
  }

  lemma InsertionAdds(rows: seq<Row>, row: Row, i: nat)
    requires i <= |rows|
    ensures multiset(rows[..i] + [row] + rows[i..]) == multiset(rows) + multiset{row}
  {
    assert rows == rows[..i] + rows[i..];
  }

  lemma InsertionSorted(rows: seq<Row>, row: Row, terms: Option<seq<string>>, i: nat)
    requires Sorted(rows, terms) && i <= |rows|
    requires forall k :: 0 <= k < i ==> Order(rows[k], row, terms) <= 0
    requires i < |rows| ==> Order(rows[i], row, terms) > 0
    ensures Sorted(rows[..i] + [row] + rows[i..], terms)
  {
    forall k | i <= k < |rows| ensures Order(row, rows[k], terms) <= 0 {
      OrderFlip(rows[i], row, terms);
      if k > i {
        OrderTransitive(row, rows[i], rows[k], terms);
      }
    }
  }

  // ---- whole histories ----

  datatype Op = Add(row: Row) | Search(terms: seq<string>)

  datatype Store = Store(rows: seq<Row>, terms: Option<seq<string>>)

  /** One operation may lead from s to t; how the rows are sorted is left open. */
  ghost predicate Step(s: Store, op: Op, t: Store) {
    && Sorted(t.rows, t.terms)
    && match op
       case Add(row) => t.terms == s.terms && multiset(t.rows) == multiset(s.rows) + multiset{row}
       case Search(terms) => t.terms == Some(terms) && multiset(t.rows) == multiset(s.rows)
  }

  ghost predicate Run(stores: seq<Store>, ops: seq<Op>) {
    && |stores| == |ops| + 1
    && stores[0] == Store([], None)
    && forall k :: 0 <= k < |ops| ==> Step(stores[k], ops[k], stores[k + 1])
  }

  function Added(ops: seq<Op>): multiset<Row> {
    if ops == [] then multiset{}
    else Added(ops[..|ops| - 1]) + (if ops[|ops| - 1].Add? then multiset{ops[|ops| - 1].row} else multiset{})
  }

  lemma {:induction false} RunHoldsAdded(stores: seq<Store>, ops: seq<Op>, n: nat)
    requires Run(stores, ops) && n <= |ops|
    ensures multiset(stores[n].rows) == Added(ops[..n])
  {
    if n > 0 {
      RunHoldsAdded(stores, ops, n - 1);
      assert ops[..n][..n - 1] == ops[..n - 1] && ops[..n][n - 1] == ops[n - 1];
      assert Step(stores[n - 1], ops[n - 1], stores[n]);
    } else {
      assert ops[..n] == [];
    }
  }

  /** Two histories that added the same rows, in any order and with any searches in between, answer a
      last search with the same list, provided the rows' names differ. */
  lemma HistoryDoesNotMatter(s: seq<Store>, ops: seq<Op>, t: seq<Store>, others: seq<Op>, terms: seq<string>)
    requires Run(s, ops + [Search(terms)]) && Run(t, others + [Search(terms)])
    requires Added(ops) == Added(others) && DistinctNames(s[|ops|].rows)
    ensures Picked(s[|ops| + 1].rows, terms) == Picked(t[|others| + 1].rows, terms)
  {
    var all, allOthers := ops + [Search(terms)], others + [Search(terms)];
    RunHoldsAdded(s, all, |ops|);
    RunHoldsAdded(t, allOthers, |others|);
    assert all[..|ops|] == ops && allOthers[..|others|] == others;
    assert Step(s[|ops|], all[|ops|], s[|ops| + 1]) && Step(t[|others|], allOthers[|others|], t[|others| + 1]);
    NamesOfPermutation(s[|ops|].rows, s[|ops| + 1].rows);
    ResultsDetermined(s[|ops| + 1].rows, t[|others| + 1].rows, terms);
  }

  lemma NamesOfPermutation(a: seq<Row>, b: seq<Row>)
    requires DistinctNames(a) && multiset(a) == multiset(b)
    ensures DistinctNames(b)
  {
    forall i, j | 0 <= i < j < |b| ensures b[i].name != b[j].name {
      assert b[i] in multiset(a) && b[j] in multiset(a);
      var p :| 0 <= p < |a| && a[p] == b[i];
      var q :| 0 <= q < |a| && a[q] == b[j];
      if p == q {
        Twice(b, i, j);
        Once(a, p);
        assert false;
      }
    }
  }

  lemma Twice(b: seq<Row>, i: nat, j: nat)
    requires i < j < |b| && b[i] == b[j]
    ensures multiset(b)[b[i]] >= 2
  {
    assert b == b[..i] + [b[i]] + b[i + 1..j] + [b[j]] + b[j + 1..];
  }

  lemma Once(a: seq<Row>, p: nat)
    requires DistinctNames(a) && p < |a|
    ensures multiset(a)[a[p]] == 1
  {
    assert a == a[..p] + [a[p]] + a[p + 1..];
    assert a[p] !in a[..p] && a[p] !in a[p + 1..];
  }
}
