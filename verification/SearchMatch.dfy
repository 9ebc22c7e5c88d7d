/** The two matchers of the panel search: the search provider's, and the filter of the window's panel
    list.  Folding (normalisation, case folding, accent removal) has already been applied to the text
    of a row and to the terms. */
module SearchMatch {
  import opened Text

  /** The columns of a shell model row that searching reads. */
  datatype Row = Row(
    id: string,
    name: string,                  // COL_CASEFOLDED_NAME
    description: Option<string>,   // COL_DESCRIPTION, not folded
    folded: Option<string>,        // COL_CASEFOLDED_DESCRIPTION
    keywords: seq<string>)         // COL_KEYWORDS, folded

  predicate KeywordPrefix(keywords: seq<string>, term: string) {
    exists k :: 0 <= k < |keywords| && term <= keywords[k]
  }

  // ---- the search provider ----

  /** One term matches a row. */
  predicate MatchesTerm(r: Row, term: string) {
    || Contains(r.name, term)
    || (r.folded.Some? && Contains(r.folded.value, term))
    || KeywordPrefix(r.keywords, term)
  }

  /** Every term matches. */
  predicate Matches(r: Row, terms: seq<string>) {
    forall i :: 0 <= i < |terms| ==> MatchesTerm(r, terms[i])
  }

  /** cc_shell_model_iter_matches_search */
  method IterMatchesSearch(r: Row, term: string) returns (result: bool)
    ensures result <==> MatchesTerm(r, term)
  {
    result := Contains(r.name, term);
    if !result && r.folded.Some? {
      result := Contains(r.folded.value, term);
    }
    if !result {
      var i := 0;
      while !result && i < |r.keywords|
        invariant 0 <= i <= |r.keywords|
        invariant result <==> exists k :: 0 <= k < i && term <= r.keywords[k]
      {
        result := term <= r.keywords[i];
        i := i + 1;
      }
    }
  }

  /** matches_all_terms */
  method MatchesAllTerms(r: Row, terms: seq<string>) returns (result: bool)
    ensures result <==> Matches(r, terms)
  {
    var i := 0;
    while i < |terms|
      invariant 0 <= i <= |terms|
      invariant forall k :: 0 <= k < i ==> MatchesTerm(r, terms[k])
    {
      var m := IterMatchesSearch(r, terms[i]);
      if !m {
        return false;
      }
      i := i + 1;
    }
    return true;
  }

  // ---- the window's filter ----

  /** g_ascii_isspace */
  predicate Space(c: char) { c == ' ' || c == '\t' || c == '\n' || c == '\r' || c == '\U{000C}' }

  /** g_strchug */
  function StripLeft(s: string): (r: string)
    ensures |r| <= |s|
  {
    if s != [] && Space(s[0]) then StripLeft(s[1..]) else s
  }

  /** g_strchomp */
  function StripRight(s: string): (r: string)
    ensures |r| <= |s|
  {
    if s != [] && Space(s[|s| - 1]) then StripRight(s[..|s| - 1]) else s
  }

  /** g_strstrip */
  function Strip(s: string): string { StripRight(StripLeft(s)) }

  /** One word of the search text matches a row; empty words are skipped. */
  predicate AcceptsWord(r: Row, word: string) {
    || word == []
    || KeywordPrefix(r.keywords, word)
    || Contains(Strip(r.name), word)
    || (r.folded.Some? && Contains(Strip(r.folded.value), word))
  }

  predicate Accepts(r: Row, words: Option<seq<string>>) {
    words.Some? ==> forall j :: 0 <= j < |words.value| ==> AcceptsWord(r, words.value[j])
  }

  /** filter_func */
  method FilterFunc(r: Row, words: Option<seq<string>>) returns (retval: bool)
    ensures retval <==> Accepts(r, words)
  {
    retval := true;
    if words == None {
      return;
    }
    var panelText := Strip(r.name);
    var panelDescription := if r.folded.Some? then Some(Strip(r.folded.value)) else None;
    var j := 0;
    while retval && j < |words.value|
      invariant 0 <= j <= |words.value|
      invariant retval <==> forall k :: 0 <= k < j ==> AcceptsWord(r, words.value[k])
    {
      var word := words.value[j];
      j := j + 1;
      if word == [] {
        continue;
      }
      var matched, i := false, 0;
      while !matched && i < |r.keywords|
        invariant 0 <= i <= |r.keywords|
        invariant matched <==> exists k :: 0 <= k < i && word <= r.keywords[k]
      {
        matched := word <= r.keywords[i];
        i := i + 1;
      }
      matched := matched || Contains(panelText, word)
                || (panelDescription.Some? && Contains(panelDescription.value, word));
      assert matched <==> AcceptsWord(r, word);
      retval := matched;
    }
  }

  /** White space is space, tab, line feed, form feed and carriage return. */
  lemma SpacesAre(c: char)
    ensures Space(c) <==> c as int == 32 || c as int == 9 || c as int == 10 || c as int == 12 || c as int == 13
  {
  }

  // ---- what makes a row match ----

  /** A term matches exactly when it occurs in the name or in the description, or begins some keyword. */
  lemma MatchesTermIff(r: Row, term: string)
    ensures MatchesTerm(r, term) <==>
      || (exists i :: 0 <= i <= |r.name| && term <= r.name[i..])
      || (r.folded.Some? && exists i :: 0 <= i <= |r.folded.value| && term <= r.folded.value[i..])
      || (exists k :: 0 <= k < |r.keywords| && term <= r.keywords[k])
  {
    OccursIff(r.name, term);
    if r.folded.Some? {
      OccursIff(r.folded.value, term);
    }
  }

  /** So does a word of the window's filter, where only the stripped name and description count. */
  lemma AcceptsWordIff(r: Row, word: string)
    ensures AcceptsWord(r, word) <==>
      || word == ""
      || (exists i :: 0 <= i <= |Strip(r.name)| && word <= Strip(r.name)[i..])
      || (r.folded.Some? && exists i :: 0 <= i <= |Strip(r.folded.value)| && word <= Strip(r.folded.value)[i..])
      || (exists k :: 0 <= k < |r.keywords| && word <= r.keywords[k])
  {
    OccursIff(Strip(r.name), word);
    if r.folded.Some? {
      OccursIff(Strip(r.folded.value), word);
    }
  }

  lemma OccursIff(s: string, w: string)
    ensures Contains(s, w) <==> exists i :: 0 <= i <= |s| && w <= s[i..]
  {
    if Contains(s, w) {
      var i := ContainsSomewhere(s, w);
      assert w <= s[i..];
    }
    if i :| 0 <= i <= |s| && w <= s[i..] {
      ContainsAt(s, w, i);
    }
  }

  /** Every keyword that begins with the term, whichever it is, makes both matchers accept. */
  lemma KeywordMatches(r: Row, term: string, k: nat)
    requires k < |r.keywords| && term <= r.keywords[k]
    ensures MatchesTerm(r, term) && AcceptsWord(r, term)
  {
  }

  /** A name around the term makes the search provider match; so does a description; and the window, unless
      the term has white space at its ends. */
  lemma TextMatches(r: Row, before: string, term: string, after: string)
    requires r.name == before + term + after || r.folded == Some(before + term + after)
    ensures MatchesTerm(r, term) && (Solid(term) ==> AcceptsWord(r, term))
  {
    var s := before + term + after;
    assert s[|before|..] == term + after;
    ContainsAt(s, term, |before|);
    if Solid(term) {
      AcceptsSolid(r, term);
    }
  }

  // ---- the two agree ----

  /** Neither end of the word is white space. */
  predicate Solid(word: string) {
    word == [] || (!Space(word[0]) && !Space(word[|word| - 1]))
  }

  predicate AllSpace(s: string) { forall i :: 0 <= i < |s| ==> Space(s[i]) }

  lemma {:induction false} StripLeftParts(s: string) returns (pad: string)
    ensures s == pad + StripLeft(s) && AllSpace(pad)
    ensures StripLeft(s) != [] ==> !Space(StripLeft(s)[0])
  {
    if s != [] && Space(s[0]) {
      var rest := StripLeftParts(s[1..]);
      pad := [s[0]] + rest;
      assert s == [s[0]] + s[1..];
      assert pad + StripLeft(s) == [s[0]] + (rest + StripLeft(s[1..]));
    } else {
      pad := [];
    }
  }

  lemma {:induction false} StripRightParts(s: string) returns (pad: string)
    ensures s == StripRight(s) + pad && AllSpace(pad)
    ensures StripRight(s) != [] ==> !Space(StripRight(s)[|StripRight(s)| - 1])
  {
    if s != [] && Space(s[|s| - 1]) {
      var rest := StripRightParts(s[..|s| - 1]);
      pad := rest + [s[|s| - 1]];
      assert s == s[..|s| - 1] + [s[|s| - 1]];
      assert s == StripRight(s) + pad;
    } else {
      pad := [];
      assert s == s + pad;
    }
  }

  lemma ContainsInside(left: string, mid: string, right: string, w: string)
    requires Contains(mid, w)
    ensures Contains(left + mid + right, w)
  {
    var i := ContainsSomewhere(mid, w);
    var s := left + mid + right;
    assert s[|left| + i..] == mid[i..] + right;
    ContainsAt(s, w, |left| + i);
  }

  /** Cutting white space off both ends does not lose an occurrence of a solid word. */
  lemma SolidInside(left: string, mid: string, right: string, w: string)
    requires AllSpace(left) && AllSpace(right) && Solid(w) && Contains(left + mid + right, w)
    ensures Contains(mid, w)
  {
    if w != [] {
      var s := left + mid + right;
      var i := ContainsSomewhere(s, w);
      assert s[i] == w[0] && s[i + |w| - 1] == w[|w| - 1];
      assert |left| <= i && i + |w| <= |left| + |mid|;
      assert mid[i - |left|..][..|w|] == s[i..][..|w|];
      ContainsAt(mid, w, i - |left|);
    }
  }

  lemma StripParts(s: string) returns (left: string, right: string)
    ensures s == left + Strip(s) + right && AllSpace(left) && AllSpace(right)
    ensures Solid(Strip(s))
  {
    left := StripLeftParts(s);
    right := StripRightParts(StripLeft(s));
    assert left + (Strip(s) + right) == left + Strip(s) + right;
    assert Strip(s) != [] ==> Strip(s)[0] == StripLeft(s)[0];
  }

  lemma StripKeepsSolid(s: string, w: string)
    requires Solid(w)
    ensures Contains(Strip(s), w) <==> Contains(s, w)
  {
    var left, right := StripParts(s);
    if Contains(s, w) {
      SolidInside(left, Strip(s), right, w);
    }
    if Contains(Strip(s), w) {
      ContainsInside(left, Strip(s), right, w);
    }
  }

  lemma AcceptsSolid(r: Row, w: string)
    requires Solid(w)
    ensures AcceptsWord(r, w) <==> MatchesTerm(r, w)
  {
    if w == [] {
      ContainsAt(r.name, w, 0);
    } else {
      StripKeepsSolid(r.name, w);
      if r.folded.Some? {
        StripKeepsSolid(r.folded.value, w);
      }
    }
  }

  /** For every row, and every list of terms that are empty or have no white space at their ends (so
      in particular terms free of white space), the window and the search provider agree. */
  lemma MatchersAgree(r: Row, terms: seq<string>)
    requires forall i :: 0 <= i < |terms| ==> Solid(terms[i])
    ensures Accepts(r, Some(terms)) <==> Matches(r, terms)
  {
    forall i | 0 <= i < |terms| ensures AcceptsWord(r, terms[i]) <==> MatchesTerm(r, terms[i]) {
      AcceptsSolid(r, terms[i]);
    }
  }

  lemma ShorterContainsNot(s: string, w: string)
    requires |s| < |w|
    ensures !Contains(s, w)
  {
    if Contains(s, w) {
      var i := ContainsSomewhere(s, w);
    }
  }

  /** The matchers accept the same rows for these terms. */
  ghost predicate AgreeOn(terms: seq<string>) {
    forall r: Row :: Accepts(r, Some(terms)) <==> Matches(r, terms)
  }

  /** The term is solid, or begins a solid term of the list. */
  predicate Covered(terms: seq<string>, term: string) {
    exists k :: 0 <= k < |terms| && Solid(terms[k]) && term <= terms[k]
  }

  /** The window never accepts a word that the search provider does not match. */
  lemma AcceptedMatches(r: Row, w: string)
    requires AcceptsWord(r, w)
    ensures MatchesTerm(r, w)
  {
    if w == [] {
      ContainsAt(r.name, w, 0);
    } else if Contains(Strip(r.name), w) {
      StripContains(r.name, w);
    } else if r.folded.Some? && Contains(Strip(r.folded.value), w) {
      StripContains(r.folded.value, w);
    }
  }

  lemma StripContains(s: string, w: string)
    requires Contains(Strip(s), w)
    ensures Contains(s, w)
  {
    var left, right := StripParts(s);
    ContainsInside(left, Strip(s), right, w);
  }

  lemma CoveredAccepted(r: Row, terms: seq<string>, w: string)
    requires Matches(r, terms) && Covered(terms, w)
    ensures AcceptsWord(r, w)
  {
    var k :| 0 <= k < |terms| && Solid(terms[k]) && w <= terms[k];
    AcceptsSolid(r, terms[k]);
    AcceptsPrefix(r, w, terms[k]);
  }

  lemma AcceptsPrefix(r: Row, w: string, longer: string)
    requires w <= longer && AcceptsWord(r, longer)
    ensures AcceptsWord(r, w)
  {
    if longer == [] || w == [] {
    } else if KeywordPrefix(r.keywords, longer) {
      var k :| 0 <= k < |r.keywords| && longer <= r.keywords[k];
      assert w <= r.keywords[k];
    } else if Contains(Strip(r.name), longer) {
      ContainsPrefix(Strip(r.name), w, longer);
    } else {
      ContainsPrefix(Strip(r.folded.value), w, longer);
    }
  }

  /** Of the terms that are not covered, one that is not the beginning of any other term. */
  lemma {:induction false} LongestUncovered(terms: seq<string>, k: nat) returns (m: nat)
    requires k < |terms| && !Covered(terms, terms[k])
    ensures m < |terms| && !Covered(terms, terms[m])
    ensures forall j :: 0 <= j < |terms| && terms[m] <= terms[j] ==> terms[j] == terms[m]
    decreases Longest(terms) - |terms[k]|
  {
    if j :| 0 <= j < |terms| && terms[k] <= terms[j] && terms[j] != terms[k] {
      LongestBounds(terms, j);
      assert |terms[k]| < |terms[j]|;
      m := LongestUncovered(terms, j);
    } else {
      m := k;
    }
  }

  function Longest(terms: seq<string>): nat {
    if terms == [] then 0
    else if |terms[0]| > Longest(terms[1..]) then |terms[0]| else Longest(terms[1..])
  }

  lemma {:induction false} LongestBounds(terms: seq<string>, j: nat)
    requires j < |terms|
    ensures |terms[j]| <= Longest(terms)
  {
    if j > 0 {
      LongestBounds(terms[1..], j - 1);
    }
  }

  /** The row whose name is term w and whose keywords are the other terms. */
  function Others(terms: seq<string>, w: string): seq<string> {
    if terms == [] then [] else (if terms[0] == w then [] else [terms[0]]) + Others(terms[1..], w)
  }

  lemma {:induction false} OthersMembers(terms: seq<string>, w: string, x: string)
    ensures x in Others(terms, w) <==> x in terms && x != w
  {
    if terms != [] {
      OthersMembers(terms[1..], w, x);
      assert terms == [terms[0]] + terms[1..];
    }
  }

  /** A row that the search provider lists and the window does not. */
  lemma UncoveredDisagrees(terms: seq<string>, m: nat)
    requires m < |terms| && !Covered(terms, terms[m])
    requires forall j :: 0 <= j < |terms| && terms[m] <= terms[j] ==> terms[j] == terms[m]
    ensures !AgreeOn(terms)
  {
    var w := terms[m];
    var r := Row("", w, None, None, Others(terms, w));
    forall j | 0 <= j < |terms| ensures MatchesTerm(r, terms[j]) {
      OthersMembers(terms, w, terms[j]);
      if terms[j] == w {
        ContainsAt(w, w, 0);
      } else {
        var k :| 0 <= k < |r.keywords| && r.keywords[k] == terms[j];
      }
    }
    forall k | 0 <= k < |r.keywords| ensures !(w <= r.keywords[k]) {
      OthersMembers(terms, w, r.keywords[k]);
    }
    assert !Solid(w);
    var left, right := StripParts(w);
    ShorterContainsNot(Strip(w), w);
    assert Matches(r, terms) && !AcceptsWord(r, terms[m]);
  }

  /** The condition is exact: the matchers agree on all rows if and only if every term is solid or begins a
      solid term of the list. */
  lemma AgreeIffSolid(terms: seq<string>)
    ensures AgreeOn(terms) <==> forall k :: 0 <= k < |terms| ==> Covered(terms, terms[k])
  {
    if k :| 0 <= k < |terms| && !Covered(terms, terms[k]) {
      var m := LongestUncovered(terms, k);
      UncoveredDisagrees(terms, m);
    } else {
      forall r: Row ensures Accepts(r, Some(terms)) <==> Matches(r, terms) {
        CoveredAgree(r, terms);
      }
    }
  }

  lemma CoveredAgree(r: Row, terms: seq<string>)
    requires forall k :: 0 <= k < |terms| ==> Covered(terms, terms[k])
    ensures Accepts(r, Some(terms)) <==> Matches(r, terms)
  {
    if Accepts(r, Some(terms)) {
      forall k | 0 <= k < |terms| ensures MatchesTerm(r, terms[k]) {
        AcceptedMatches(r, terms[k]);
      }
    }
    if Matches(r, terms) {
      forall k | 0 <= k < |terms| ensures AcceptsWord(r, terms[k]) {
        CoveredAccepted(r, terms, terms[k]);
      }
    }
  }

  // ---- more or longer terms never add results ----

  /** Every old term is empty or begins some new term. */
  ghost predicate Narrows(newer: seq<string>, older: seq<string>) {
    forall i :: 0 <= i < |older| ==> older[i] == [] || StartsOne(newer, older[i])
  }

  ghost predicate StartsOne(terms: seq<string>, w: string) {
    exists k :: 0 <= k < |terms| && w <= terms[k]
  }

  lemma {:induction false} ContainsPrefix(s: string, w: string, longer: string)
    requires w <= longer && Contains(s, longer)
    ensures Contains(s, w)
  {
    var i := ContainsSomewhere(s, longer);
    assert longer[..|w|] == s[i..][..|w|];
    ContainsAt(s, w, i);
  }

  lemma MatchesPrefix(r: Row, w: string, longer: string)
    requires w <= longer && MatchesTerm(r, longer)
    ensures MatchesTerm(r, w)
  {
    if Contains(r.name, longer) {
      ContainsPrefix(r.name, w, longer);
    } else if r.folded.Some? && Contains(r.folded.value, longer) {
      ContainsPrefix(r.folded.value, w, longer);
    } else {
      var k :| 0 <= k < |r.keywords| && longer <= r.keywords[k];
      assert w <= r.keywords[k];
    }
  }

  /** Rows that match the newer terms match the older ones. */
  ghost predicate NeverAdds(newer: seq<string>, older: seq<string>) {
    forall r: Row :: Matches(r, newer) ==> Matches(r, older)
  }

  /** Changing the terms adds no result, whatever the rows, exactly when every old term is empty or
      begins some new one; in particular when terms are added or typed further. */
  lemma NeverAddsIffNarrows(newer: seq<string>, older: seq<string>)
    ensures NeverAdds(newer, older) <==> Narrows(newer, older)
  {
    if Narrows(newer, older) {
      forall r: Row, i | Matches(r, newer) && 0 <= i < |older| ensures MatchesTerm(r, older[i]) {
        if older[i] == [] {
          ContainsAt(r.name, older[i], 0);
        } else {
          var k :| 0 <= k < |newer| && older[i] <= newer[k];
          MatchesPrefix(r, older[i], newer[k]);
        }
      }
    }
    if NeverAdds(newer, older) {
      var r := Row("", "", None, None, newer);
      forall i | 0 <= i < |newer| ensures MatchesTerm(r, newer[i]) {
        assert newer[i] <= r.keywords[i];
      }
      assert Matches(r, newer);
      forall i | 0 <= i < |older| ensures older[i] == [] || StartsOne(newer, older[i]) {
        assert MatchesTerm(r, older[i]);
      }
    }
  }

  /** Rows that the window shows for the newer words it shows for the older ones. */
  ghost predicate FilterNeverAdds(newer: seq<string>, older: seq<string>) {
    forall r: Row :: Accepts(r, Some(newer)) ==> Accepts(r, Some(older))
  }

  /** The same for the window's filter: changing the words adds no row exactly when every old word is empty
      or begins some new one. */
  lemma FilterNeverAddsIffNarrows(newer: seq<string>, older: seq<string>)
    ensures FilterNeverAdds(newer, older) <==> Narrows(newer, older)
  {
    if Narrows(newer, older) {
      forall r: Row, i | Accepts(r, Some(newer)) && 0 <= i < |older| ensures AcceptsWord(r, older[i]) {
        if older[i] != [] {
          var k :| 0 <= k < |newer| && older[i] <= newer[k];
          AcceptsPrefix(r, older[i], newer[k]);
        }
      }
    }
    if FilterNeverAdds(newer, older) {
      var r := Row("", "", None, None, newer);
      forall i | 0 <= i < |newer| ensures AcceptsWord(r, newer[i]) {
        assert newer[i] <= r.keywords[i];
      }
      assert Accepts(r, Some(newer));
      forall i | 0 <= i < |older| ensures older[i] == [] || StartsOne(newer, older[i]) {
        assert AcceptsWord(r, older[i]);
        assert Strip("") == "";
      }
    }
  }

  // ---- from the search provider to the window ----

  /** The pieces of s between single spaces. */
  function Cut(s: string): (r: seq<string>)
    ensures |r| >= 1
  {
    if s == [] then [[]]
    else if s[0] == ' ' then [[]] + Cut(s[1..])
    else Grow(s[0], Cut(s[1..]))
  }

  /** The character in front of the first word. */
  function Grow(c: char, words: seq<string>): (r: seq<string>)
    requires words != []
    ensures |r| == |words|
  {
    [[c] + words[0]] + words[1..]
  }

  /** g_strsplit(s, " ", ...) */
  function Split(s: string): seq<string> { if s == [] then [] else Cut(s) }

  /** g_strjoinv(" ", terms) */
  function Join(terms: seq<string>): string {
    if terms == [] then ""
    else if |terms| == 1 then terms[0]
    else terms[0] + [' '] + Join(terms[1..])
  }

  function WithoutEmpty(words: seq<string>): seq<string> {
    if words == [] then []
    else (if words[0] == [] then [] else [words[0]]) + WithoutEmpty(words[1..])
  }

  predicate NoSpace(s: string) { forall i :: 0 <= i < |s| ==> !Space(s[i]) }

  lemma GrowAppend(c: char, x: seq<string>, y: seq<string>)
    requires x != []
    ensures Grow(c, x + y) == Grow(c, x) + y
  {
    assert (x + y)[1..] == x[1..] + y;
  }

  lemma {:induction false} CutAppend(a: string, b: string)
    ensures Cut(a + [' '] + b) == Cut(a) + Cut(b)
  {
    var s := a + [' '] + b;
    if a == [] {
      assert s[0] == ' ' && s[1..] == b;
    } else {
      assert s[0] == a[0] && s[1..] == a[1..] + [' '] + b;
      CutAppend(a[1..], b);
      GrowAppend(a[0], Cut(a[1..]), Cut(b));
    }
  }

  lemma {:induction false} CutNoSpace(w: string)
    requires NoSpace(w)
    ensures Cut(w) == [w]
  {
    if w != [] {
      CutNoSpace(w[1..]);
      assert w == [w[0]] + w[1..];
    }
  }

  /** Splitting undoes joining. */
  lemma {:induction false} CutJoin(terms: seq<string>)
    requires terms != [] && forall i :: 0 <= i < |terms| ==> NoSpace(terms[i])
    ensures Cut(Join(terms)) == terms
  {
    CutNoSpace(terms[0]);
    if |terms| == 1 {
      assert terms == [terms[0]];
    } else {
      CutJoin(terms[1..]);
      CutAppend(terms[0], Join(terms[1..]));
      assert terms == [terms[0]] + terms[1..];
    }
  }

  lemma {:induction false} WithoutEmptyAppend(a: seq<string>, b: seq<string>)
    ensures WithoutEmpty(a + b) == WithoutEmpty(a) + WithoutEmpty(b)
  {
    if a == [] {
      assert a + b == b;
    } else {
      assert (a + b)[1..] == a[1..] + b;
      WithoutEmptyAppend(a[1..], b);
    }
  }

  /** The only white space in s is the space character. */
  predicate OnlyBlanks(s: string) { forall i :: 0 <= i < |s| && Space(s[i]) ==> s[i] == ' ' }

  lemma {:induction false} StripLeftKeepsWords(s: string)
    requires OnlyBlanks(s)
    ensures WithoutEmpty(Cut(StripLeft(s))) == WithoutEmpty(Cut(s)) && OnlyBlanks(StripLeft(s))
  {
    if s != [] && Space(s[0]) {
      StripLeftKeepsWords(s[1..]);
      assert Cut(s)[1..] == Cut(s[1..]);
    }
  }

  lemma {:induction false} StripRightKeepsWords(s: string)
    requires OnlyBlanks(s)
    ensures WithoutEmpty(Cut(StripRight(s))) == WithoutEmpty(Cut(s))
  {
    if s != [] && Space(s[|s| - 1]) {
      var t := s[..|s| - 1];
      StripRightKeepsWords(t);
      assert s == t + [' '] + [];
      CutAppend(t, []);
      WithoutEmptyAppend(Cut(t), [[]]);
    }
  }

  lemma {:induction false} JoinOnlyBlanks(terms: seq<string>)
    requires forall i :: 0 <= i < |terms| ==> NoSpace(terms[i])
    ensures OnlyBlanks(Join(terms))
  {
    if |terms| > 1 {
      JoinOnlyBlanks(terms[1..]);
    }
  }

  lemma {:induction false} WithoutEmptyMembers(words: seq<string>, w: string)
    ensures w in WithoutEmpty(words) <==> w in words && w != []
  {
    if words != [] {
      WithoutEmptyMembers(words[1..], w);
      assert words == [words[0]] + words[1..];
    }
  }

  /** cc_panel_list_set_search_query: the words of a search text. */
  function SearchWords(fold: string -> string, text: string): seq<string> {
    Split(Strip(fold(text)))
  }

  function FoldAll(fold: string -> string, terms: seq<string>): seq<string> {
    seq(|terms|, i requires 0 <= i < |terms| => fold(terms[i]))
  }

  lemma SameWordsSameVerdict(r: Row, a: seq<string>, b: seq<string>)
    requires WithoutEmpty(a) == WithoutEmpty(b) && Accepts(r, Some(a))
    ensures Accepts(r, Some(b))
  {
    forall j | 0 <= j < |b| ensures AcceptsWord(r, b[j]) {
      WithoutEmptyMembers(b, b[j]);
      WithoutEmptyMembers(a, b[j]);
    }
  }

  /** Splitting the stripped text undoes joining, up to empty terms. */
  lemma WordsOfJoin(terms: seq<string>)
    requires forall i :: 0 <= i < |terms| ==> NoSpace(terms[i])
    ensures WithoutEmpty(Split(Strip(Join(terms)))) == WithoutEmpty(terms)
  {
    var text := Join(terms);
    JoinOnlyBlanks(terms);
    StripLeftKeepsWords(text);
    StripRightKeepsWords(StripLeft(text));
    if terms != [] {
      CutJoin(terms);
    }
  }

  lemma JoinedSearchAgrees(r: Row, terms: seq<string>)
    requires forall i :: 0 <= i < |terms| ==> NoSpace(terms[i])
    ensures Accepts(r, Some(Split(Strip(Join(terms))))) <==> Matches(r, terms)
  {
    var words := Split(Strip(Join(terms)));
    WordsOfJoin(terms);
    if Accepts(r, Some(words)) { SameWordsSameVerdict(r, words, terms); }
    if Accepts(r, Some(terms)) { SameWordsSameVerdict(r, terms, words); }
    MatchersAgree(r, terms);
  }

  /** The window's filter for the joined terms accepts exactly the rows the provider lists, when folding
      treats the terms separately and leaves no white space in them. */
  lemma FoldedSearchAgrees(fold: string -> string, r: Row, terms: seq<string>)
    requires fold(Join(terms)) == Join(FoldAll(fold, terms))
    requires forall i :: 0 <= i < |terms| ==> NoSpace(fold(terms[i]))
    ensures Accepts(r, Some(SearchWords(fold, Join(terms)))) <==> Matches(r, FoldAll(fold, terms))
  {
    var folded := FoldAll(fold, terms);
    forall i | 0 <= i < |folded| ensures NoSpace(folded[i]) {
      assert folded[i] == fold(terms[i]);
    }
    JoinedSearchAgrees(r, folded);
  }
}
