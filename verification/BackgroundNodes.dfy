/** What loading a wallpaper element gives, in terms of its nodes: each property is that of the last node
    that gives it, the name depends on the user's languages, the loop stops at the first name or file name
    without text, and some nodes crash the program. */
module BackgroundNodes {
  import opened Text
  import opened BackgroundItem
  import opened BackgroundFile
  import SearchMatch

  // ---- in terms of the nodes ----

  /** An element with a child. */
  predicate Gives(n: Node, tag: Tag) { n.Element? && n.tag == tag && n.child != NoChild }

  ghost predicate LastAt(nodes: seq<Node>, k: int, tag: Tag) {
    0 <= k < |nodes| && Gives(nodes[k], tag) && forall j :: k < j < |nodes| ==> !Gives(nodes[j], tag)
  }

  ghost predicate NoneGives(nodes: seq<Node>, tag: Tag) {
    forall j :: 0 <= j < |nodes| ==> !Gives(nodes[j], tag)
  }

  /** A name without a language. */
  predicate Unmarked(n: Node) { n.Element? && n.tag == NameTag && n.lang == None }

  /** A name in one of the user's languages. */
  predicate Translated(env: Env, n: Node) {
    n.Element? && n.tag == NameTag && n.lang.Some? && n.lang.value in env.langs
  }

  ghost predicate FirstUnmarked(nodes: seq<Node>, k: int) {
    0 <= k < |nodes| && Unmarked(nodes[k]) && forall j :: 0 <= j < k ==> !Unmarked(nodes[j])
  }

  ghost predicate LastTranslated(env: Env, nodes: seq<Node>, k: int) {
    0 <= k < |nodes| && Translated(env, nodes[k]) && forall j :: k < j < |nodes| ==> !Translated(env, nodes[j])
  }

  ghost predicate AllMarked(nodes: seq<Node>) { forall j :: 0 <= j < |nodes| ==> !Unmarked(nodes[j]) }

  ghost predicate NoTranslation(env: Env, nodes: seq<Node>) {
    forall j :: 0 <= j < |nodes| ==> !Translated(env, nodes[j])
  }

  /** The loop is left at this node. */
  predicate Stops(n: Node) {
    n.Element? && (n.tag == Filename || n.tag == FilenameDark || n.tag == NameTag) && !n.child.LastText?
  }

  ghost predicate FirstStop(nodes: seq<Node>, n: nat) {
    n <= |nodes| && (n < |nodes| ==> Stops(nodes[n])) && forall j :: 0 <= j < n ==> !Stops(nodes[j])
  }

  /** The text of the node, stripped, if it has one. */
  function Said(n: Node): Option<string> {
    if n.Element? && n.child.LastText? then Some(SearchMatch.Strip(n.child.text)) else None
  }

  /** The location that the node names. */
  function Place(env: Env, n: Node): Option<string> {
    if Said(n) == None || Said(n) == Some("(none)") then None else Some(env.uriOf(Said(n).value))
  }

  /** The picture is that of the last file name, the dark picture that of the last dark file name. */
  ghost predicate PlacesRead(env: Env, nodes: seq<Node>, a: Acc) {
    && a.item.flags.hasUri
    && (NoneGives(nodes, Filename) ==> a.item.uri == None && a.bgUri == None)
    && (forall k :: LastAt(nodes, k, Filename) ==>
          a.bgUri == Place(env, nodes[k]) && a.item.uri == NonEmpty(Place(env, nodes[k])))
    && (NoneGives(nodes, FilenameDark) ==> a.item.uriDark == None && a.bgUriDark == None && !a.item.flags.hasUriDark)
    && (forall k :: LastAt(nodes, k, FilenameDark) ==>
          a.item.flags.hasUriDark
          && a.bgUriDark == Place(env, nodes[k]) && a.item.uriDark == NonEmpty(Place(env, nodes[k])))
  }

  /** Placement and shading are those of the last nodes that give them. */
  ghost predicate StyleRead(nodes: seq<Node>, i: Item) {
    && (NoneGives(nodes, Options) ==> i.placement == 3 && !i.flags.hasPlacement)
    && (forall k :: LastAt(nodes, k, Options) ==>
          Said(nodes[k]).Some? && i.placement == EnumValue(STYLES, Said(nodes[k]).value) && i.flags.hasPlacement)
    && (NoneGives(nodes, ShadeType) ==> i.shading == 0 && !i.flags.hasShading)
    && (forall k :: LastAt(nodes, k, ShadeType) ==>
          Said(nodes[k]).Some? && i.shading == EnumValue(SHADINGS, Said(nodes[k]).value) && i.flags.hasShading)
  }

  /** So are the colours and the source. */
  ghost predicate TextsRead(nodes: seq<Node>, i: Item) {
    && (NoneGives(nodes, PcolorTag) ==> i.pcolor == Some(BLACK) && !i.flags.hasPcolor)
    && (forall k :: LastAt(nodes, k, PcolorTag) ==> i.pcolor == Said(nodes[k]) && i.flags.hasPcolor)
    && (NoneGives(nodes, ScolorTag) ==> i.scolor == Some(BLACK) && !i.flags.hasScolor)
    && (forall k :: LastAt(nodes, k, ScolorTag) ==> i.scolor == Said(nodes[k]) && i.flags.hasScolor)
    && (NoneGives(nodes, SourceUrlTag) ==> i.sourceUrl == None && i.needsDownload)
    && (forall k :: LastAt(nodes, k, SourceUrlTag) ==> i.sourceUrl == Said(nodes[k]) && !i.needsDownload)
  }

  /** The name is that of the last node in a user's language, else that of the first node without a language;
      the latter's also goes into the identifier. */
  ghost predicate NamesRead(env: Env, nodes: seq<Node>, a: Acc) {
    && (forall k :: LastTranslated(env, nodes, k) ==> a.item.name == Said(nodes[k]))
    && (NoTranslation(env, nodes) ==> forall k :: FirstUnmarked(nodes, k) ==> a.item.name == Said(nodes[k]))
    && (NoTranslation(env, nodes) && AllMarked(nodes) ==> a.item.name == None)
    && (forall k :: FirstUnmarked(nodes, k) ==> a.cname == Said(nodes[k]))
    && (AllMarked(nodes) ==> a.cname == None)
  }

  /** Item and strings are what these nodes, which do not stop the loop, say. */
  ghost predicate Reads(env: Env, deleted: bool, nodes: seq<Node>, a: Acc) {
    && a.item.isDeleted == deleted && a.item.sourceXml == Some(env.filename)
    && PlacesRead(env, nodes, a) && StyleRead(nodes, a.item) && TextsRead(nodes, a.item) && NamesRead(env, nodes, a)
  }

  // ---- one property at a time ----

  /** What an item says about a property, and a further string that goes with it. */
  datatype Value = Value(text: Option<string>, number: nat, flag: bool, string: Option<string>)

  function Held(a: Acc, tag: Tag): Value {
    match tag
    case Filename => Value(a.item.uri, 0, a.item.flags.hasUri, a.bgUri)
    case FilenameDark => Value(a.item.uriDark, 0, a.item.flags.hasUriDark, a.bgUriDark)
    case Options => Value(None, a.item.placement, a.item.flags.hasPlacement, None)
    case ShadeType => Value(None, a.item.shading, a.item.flags.hasShading, None)
    case PcolorTag => Value(a.item.pcolor, 0, a.item.flags.hasPcolor, None)
    case ScolorTag => Value(a.item.scolor, 0, a.item.flags.hasScolor, None)
    case SourceUrlTag => Value(a.item.sourceUrl, 0, !a.item.needsDownload, None)
    case _ => Value(None, 0, false, None)
  }

  function Given(env: Env, n: Node, tag: Tag): Value {
    match tag
    case Filename => Value(NonEmpty(Place(env, n)), 0, true, Place(env, n))
    case FilenameDark => Value(NonEmpty(Place(env, n)), 0, true, Place(env, n))
    case Options => Value(None, if Said(n).Some? then EnumValue(STYLES, Said(n).value) else 0, true, None)
    case ShadeType => Value(None, if Said(n).Some? then EnumValue(SHADINGS, Said(n).value) else 0, true, None)
    case PcolorTag => Value(Said(n), 0, true, None)
    case ScolorTag => Value(Said(n), 0, true, None)
    case SourceUrlTag => Value(Said(n), 0, true, None)
    case _ => Value(None, 0, false, None)
  }

  lemma FilenameStep(env: Env, a: Acc, n: Node)
    requires Step(env, a, n).Going?
    ensures Held(Step(env, a, n).acc, Filename)
            == if Gives(n, Filename) then Given(env, n, Filename) else Held(a, Filename)
  {
  }

  lemma FilenameDarkStep(env: Env, a: Acc, n: Node)
    requires Step(env, a, n).Going?
    ensures Held(Step(env, a, n).acc, FilenameDark)
            == if Gives(n, FilenameDark) then Given(env, n, FilenameDark) else Held(a, FilenameDark)
  {
  }

  lemma PlacementStep(env: Env, a: Acc, lang: Option<string>, text: string)
    ensures Step(env, a, Element(Options, lang, LastText(text)))
            == Going(a.(item := SetPlacement(a.item, EnumValue(STYLES, Strip(text)))))
  {
  }

  lemma ShadingStep(env: Env, a: Acc, lang: Option<string>, text: string)
    ensures Step(env, a, Element(ShadeType, lang, LastText(text)))
            == Going(a.(item := SetShading(a.item, EnumValue(SHADINGS, Strip(text)))))
  {
  }

  lemma StyleStep(env: Env, a: Acc, n: Node)
    requires Step(env, a, n).Going? && n.Element? && (n.tag == Options || n.tag == ShadeType)
    ensures Step(env, a, n).acc ==
      if Said(n) == None then a
      else if n.tag == Options then a.(item := SetPlacement(a.item, EnumValue(STYLES, Said(n).value)))
      else a.(item := SetShading(a.item, EnumValue(SHADINGS, Said(n).value)))
    ensures Said(n).Some? <==> n.child != NoChild
  {
    if n.child.LastText? {
      if n.tag == Options {
        PlacementStep(env, a, n.lang, n.child.text);
      } else {
        ShadingStep(env, a, n.lang, n.child.text);
      }
    }
  }

  lemma PlaceStep(env: Env, a: Acc, n: Node)
    requires Step(env, a, n).Going? && n.Element? && (n.tag == Filename || n.tag == FilenameDark)
    ensures Step(env, a, n).acc ==
      if n.tag == Filename then a.(bgUri := Place(env, n), item := SetUri(a.item, Place(env, n)))
      else a.(bgUriDark := Place(env, n), item := SetUriDark(a.item, Place(env, n)))
  {
    PlaceIs(env, n);
  }

  lemma PlaceIs(env: Env, n: Node)
    requires n.Element? && n.child.LastText?
    ensures UriOfText(env, n.child.text) == Place(env, n)
  {
  }

  lemma NameKeepsStyle(env: Env, a: Acc, n: Node)
    requires Step(env, a, n).Going? && n.Element? && n.tag == NameTag
    ensures Step(env, a, n).acc.item == a.item.(name := Step(env, a, n).acc.item.name)
  {
  }

  lemma TextKeepsStyle(env: Env, a: Acc, n: Node)
    requires Step(env, a, n).Going? && n.Element? && n.tag != Options && n.tag != ShadeType
    requires n.tag != Filename && n.tag != FilenameDark && n.tag != NameTag
    ensures var i := Step(env, a, n).acc.item;
      && i.placement == a.item.placement && i.flags.hasPlacement == a.item.flags.hasPlacement
      && i.shading == a.item.shading && i.flags.hasShading == a.item.flags.hasShading
  {
  }

  lemma OtherKeepsStyle(env: Env, a: Acc, n: Node)
    requires Step(env, a, n).Going? && !(n.Element? && (n.tag == Options || n.tag == ShadeType))
    ensures var i := Step(env, a, n).acc.item;
      && i.placement == a.item.placement && i.flags.hasPlacement == a.item.flags.hasPlacement
      && i.shading == a.item.shading && i.flags.hasShading == a.item.flags.hasShading
  {
    if n.Element? {
      if n.tag == Filename || n.tag == FilenameDark {
        PlaceStep(env, a, n);
      } else if n.tag == NameTag {
        NameKeepsStyle(env, a, n);
      } else {
        TextKeepsStyle(env, a, n);
      }
    }
  }

  lemma OptionsStep(env: Env, a: Acc, n: Node)
    requires Step(env, a, n).Going?
    ensures Held(Step(env, a, n).acc, Options)
            == if Gives(n, Options) then Given(env, n, Options) else Held(a, Options)
    ensures Gives(n, Options) ==> Said(n).Some?
  {
    if n.Element? && (n.tag == Options || n.tag == ShadeType) {
      StyleStep(env, a, n);
    } else {
      OtherKeepsStyle(env, a, n);
    }
  }

  lemma ShadeTypeStep(env: Env, a: Acc, n: Node)
    requires Step(env, a, n).Going?
    ensures Held(Step(env, a, n).acc, ShadeType)
            == if Gives(n, ShadeType) then Given(env, n, ShadeType) else Held(a, ShadeType)
    ensures Gives(n, ShadeType) ==> Said(n).Some?
  {
    if n.Element? && (n.tag == Options || n.tag == ShadeType) {
      StyleStep(env, a, n);
    } else {
      OtherKeepsStyle(env, a, n);
    }
  }

  lemma PcolorTagStep(env: Env, a: Acc, n: Node)
    requires Step(env, a, n).Going?
    ensures Held(Step(env, a, n).acc, PcolorTag)
            == if Gives(n, PcolorTag) then Given(env, n, PcolorTag) else Held(a, PcolorTag)
  {
  }

  lemma ScolorTagStep(env: Env, a: Acc, n: Node)
    requires Step(env, a, n).Going?
    ensures Held(Step(env, a, n).acc, ScolorTag)
            == if Gives(n, ScolorTag) then Given(env, n, ScolorTag) else Held(a, ScolorTag)
  {
  }

  lemma SourceUrlTagStep(env: Env, a: Acc, n: Node)
    requires Step(env, a, n).Going?
    ensures Held(Step(env, a, n).acc, SourceUrlTag)
            == if Gives(n, SourceUrlTag) then Given(env, n, SourceUrlTag) else Held(a, SourceUrlTag)
  {
  }

  lemma StepGives(env: Env, a: Acc, n: Node, tag: Tag)
    requires Step(env, a, n).Going? && tag != NameTag && !tag.OtherTag?
    ensures Held(Step(env, a, n).acc, tag)
            == if Gives(n, tag) then Given(env, n, tag) else Held(a, tag)
    ensures Gives(n, tag) && (tag == Options || tag == ShadeType) ==> Said(n).Some?
  {
    match tag
    case Filename => FilenameStep(env, a, n);
    case FilenameDark => FilenameDarkStep(env, a, n);
    case Options => OptionsStep(env, a, n);
    case ShadeType => ShadeTypeStep(env, a, n);
    case PcolorTag => PcolorTagStep(env, a, n);
    case ScolorTag => ScolorTagStep(env, a, n);
    case SourceUrlTag => SourceUrlTagStep(env, a, n);
  }

  lemma {:induction false} LastGives(env: Env, a: Acc, nodes: seq<Node>, tag: Tag)
    requires Nodes(env, a, nodes).Going? && tag != NameTag && !tag.OtherTag?
    ensures var r := Nodes(env, a, nodes).acc;
      && (NoneGives(nodes, tag) ==> Held(r, tag) == Held(a, tag))
      && (forall k :: LastAt(nodes, k, tag) ==>
            Held(r, tag) == Given(env, nodes[k], tag) && (tag == Options || tag == ShadeType ==> Said(nodes[k]).Some?))
    decreases |nodes|
  {
    if nodes != [] {
      var a1, tail := Step(env, a, nodes[0]).acc, nodes[1..];
      var r := Nodes(env, a, nodes).acc;
      StepGives(env, a, nodes[0], tag);
      LastGives(env, a1, tail, tag);
      assert forall j :: 1 <= j < |nodes| ==> nodes[j] == tail[j - 1];
      forall k | LastAt(nodes, k, tag)
        ensures Held(r, tag) == Given(env, nodes[k], tag)
        ensures tag == Options || tag == ShadeType ==> Said(nodes[k]).Some?
      {
        if k > 0 {
          assert LastAt(tail, k - 1, tag);
        } else {
          assert NoneGives(tail, tag);
        }
      }
    }
  }

  // ---- the names ----

  lemma StepNames(env: Env, a: Acc, n: Node)
    requires Step(env, a, n).Going?
    ensures var r := Step(env, a, n).acc;
      && (Translated(env, n) ==> r.item.name == Said(n) && r.item.name.Some? && r.cname == a.cname)
      && (Unmarked(n) && a.item.name == None ==> r.item.name == Said(n) && r.cname == Said(n) && r.item.name.Some?)
      && (Unmarked(n) && a.item.name.Some? ==> env.langs == [] && r.item.name == a.item.name && r.cname == a.cname)
      && (!Translated(env, n) && !Unmarked(n) ==> r.item.name == a.item.name && r.cname == a.cname)
  {
  }

  /** Once there is a name, one without a language would crash if the user has languages. */
  lemma {:induction false} NoMoreUnmarked(env: Env, a: Acc, nodes: seq<Node>)
    requires Nodes(env, a, nodes).Going? && a.item.name.Some? && env.langs != []
    ensures AllMarked(nodes)
    decreases |nodes|
  {
    if nodes != [] {
      StepNames(env, a, nodes[0]);
      NoMoreUnmarked(env, Step(env, a, nodes[0]).acc, nodes[1..]);
      assert forall j :: 1 <= j < |nodes| ==> nodes[j] == nodes[1..][j - 1];
    }
  }

  /** The names, when there is one already. */
  lemma {:induction false} NamesAfter(env: Env, a: Acc, nodes: seq<Node>)
    requires Nodes(env, a, nodes).Going? && a.item.name.Some?
    ensures var r := Nodes(env, a, nodes).acc;
      && r.cname == a.cname && r.item.name.Some?
      && (NoTranslation(env, nodes) ==> r.item.name == a.item.name)
      && (forall k :: LastTranslated(env, nodes, k) ==> r.item.name == Said(nodes[k]))
    decreases |nodes|
  {
    if nodes != [] {
      var a1, tail := Step(env, a, nodes[0]).acc, nodes[1..];
      StepNames(env, a, nodes[0]);
      NamesAfter(env, a1, tail);
      assert forall j :: 1 <= j < |nodes| ==> nodes[j] == tail[j - 1];
      forall k | LastTranslated(env, nodes, k) ensures Nodes(env, a, nodes).acc.item.name == Said(nodes[k]) {
        if k > 0 {
          assert LastTranslated(env, tail, k - 1);
        } else {
          assert NoTranslation(env, tail);
        }
      }
    }
  }

  lemma FirstNamed(env: Env, nodes: seq<Node>, a1: Acc, r: Acc)
    requires nodes != [] && a1.item.name.Some? && a1.item.name == Said(nodes[0]) && r.cname == a1.cname
    requires Unmarked(nodes[0]) || Translated(env, nodes[0])
    requires Unmarked(nodes[0]) ==> a1.cname == Said(nodes[0])
    requires Translated(env, nodes[0]) ==> a1.cname == None && AllMarked(nodes[1..])
    requires NoTranslation(env, nodes[1..]) ==> r.item.name == a1.item.name
    requires forall k :: LastTranslated(env, nodes[1..], k) ==> r.item.name == Said(nodes[1..][k])
    ensures NamesRead(env, nodes, r)
  {
    var tail := nodes[1..];
    assert forall j :: 1 <= j < |nodes| ==> nodes[j] == tail[j - 1];
    forall k | LastTranslated(env, nodes, k) ensures r.item.name == Said(nodes[k]) {
      if k > 0 {
        assert LastTranslated(env, tail, k - 1);
      } else {
        assert NoTranslation(env, tail);
      }
    }
    if NoTranslation(env, nodes) {
      assert NoTranslation(env, tail);
    }
  }

  lemma LaterNamed(env: Env, nodes: seq<Node>, r: Acc)
    requires nodes != [] && !Unmarked(nodes[0]) && !Translated(env, nodes[0]) && NamesRead(env, nodes[1..], r)
    ensures NamesRead(env, nodes, r)
  {
    var tail := nodes[1..];
    assert forall j :: 1 <= j < |nodes| ==> nodes[j] == tail[j - 1];
    assert forall k :: LastTranslated(env, nodes, k) ==> LastTranslated(env, tail, k - 1);
    assert forall k :: FirstUnmarked(nodes, k) ==> FirstUnmarked(tail, k - 1);
    assert NoTranslation(env, nodes) <==> NoTranslation(env, tail);
    assert AllMarked(nodes) <==> AllMarked(tail);
  }

  lemma {:induction false} NamesFirst(env: Env, a: Acc, nodes: seq<Node>)
    requires Nodes(env, a, nodes).Going? && a.item.name == None && a.cname == None
    ensures NamesRead(env, nodes, Nodes(env, a, nodes).acc)
    decreases |nodes|
  {
    if nodes != [] {
      var a1, tail := Step(env, a, nodes[0]).acc, nodes[1..];
      var r := Nodes(env, a, nodes).acc;
      StepNames(env, a, nodes[0]);
      if Unmarked(nodes[0]) || Translated(env, nodes[0]) {
        NamesAfter(env, a1, tail);
        if Translated(env, nodes[0]) {
          NoMoreUnmarked(env, a1, tail);
        }
        FirstNamed(env, nodes, a1, r);
      } else {
        NamesFirst(env, a1, tail);
        LaterNamed(env, nodes, r);
      }
    }
  }

  // ---- all together ----

  lemma StepKeepsOrigin(env: Env, a: Acc, n: Node)
    requires Step(env, a, n).Going?
    ensures var r := Step(env, a, n).acc;
      && r.item.isDeleted == a.item.isDeleted && r.item.sourceXml == a.item.sourceXml
      && (a.item.flags.hasUri ==> r.item.flags.hasUri)
  {
    if n.Element? {
      if n.tag == Options || n.tag == ShadeType {
        StyleStep(env, a, n);
      } else if n.tag == NameTag {
        StepNames(env, a, n);
      }
    }
  }

  lemma {:induction false} OriginStays(env: Env, a: Acc, nodes: seq<Node>)
    requires Nodes(env, a, nodes).Going?
    ensures var r := Nodes(env, a, nodes).acc;
      && r.item.isDeleted == a.item.isDeleted && r.item.sourceXml == a.item.sourceXml
      && (a.item.flags.hasUri ==> r.item.flags.hasUri)
    decreases |nodes|
  {
    if nodes != [] {
      StepKeepsOrigin(env, a, nodes[0]);
      OriginStays(env, Step(env, a, nodes[0]).acc, nodes[1..]);
    }
  }

  lemma ReadsPlaces(env: Env, a: Acc, nodes: seq<Node>, r: Acc)
    requires Nodes(env, a, nodes) == Going(r)
    requires a.item.flags.hasUri && a.item.uri == None && a.bgUri == None
    requires a.item.uriDark == None && a.bgUriDark == None && !a.item.flags.hasUriDark
    ensures PlacesRead(env, nodes, r)
  {
    OriginStays(env, a, nodes);
    LastGives(env, a, nodes, Filename);
    LastGives(env, a, nodes, FilenameDark);
  }

  lemma ReadsStyle(env: Env, a: Acc, nodes: seq<Node>, r: Acc)
    requires Nodes(env, a, nodes) == Going(r)
    requires a.item.placement == 3 && a.item.shading == 0 && !a.item.flags.hasPlacement && !a.item.flags.hasShading
    ensures StyleRead(nodes, r.item)
  {
    LastGives(env, a, nodes, Options);
    LastGives(env, a, nodes, ShadeType);
  }

  lemma ReadsPcolor(env: Env, a: Acc, nodes: seq<Node>, r: Acc)
    requires Nodes(env, a, nodes) == Going(r) && !a.item.flags.hasPcolor
    ensures NoneGives(nodes, PcolorTag) ==> r.item.pcolor == a.item.pcolor && !r.item.flags.hasPcolor
    ensures forall k :: LastAt(nodes, k, PcolorTag) ==> r.item.pcolor == Said(nodes[k]) && r.item.flags.hasPcolor
  {
    LastGives(env, a, nodes, PcolorTag);
  }

  lemma ReadsScolor(env: Env, a: Acc, nodes: seq<Node>, r: Acc)
    requires Nodes(env, a, nodes) == Going(r) && !a.item.flags.hasScolor
    ensures NoneGives(nodes, ScolorTag) ==> r.item.scolor == a.item.scolor && !r.item.flags.hasScolor
    ensures forall k :: LastAt(nodes, k, ScolorTag) ==> r.item.scolor == Said(nodes[k]) && r.item.flags.hasScolor
  {
    LastGives(env, a, nodes, ScolorTag);
  }

  lemma ReadsSource(env: Env, a: Acc, nodes: seq<Node>, r: Acc)
    requires Nodes(env, a, nodes) == Going(r) && a.item.needsDownload
    ensures NoneGives(nodes, SourceUrlTag) ==> r.item.sourceUrl == a.item.sourceUrl && r.item.needsDownload
    ensures forall k :: LastAt(nodes, k, SourceUrlTag) ==> r.item.sourceUrl == Said(nodes[k]) && !r.item.needsDownload
  {
    LastGives(env, a, nodes, SourceUrlTag);
  }

  lemma ReadsTexts(env: Env, a: Acc, nodes: seq<Node>, r: Acc)
    requires Nodes(env, a, nodes) == Going(r)
    requires a.item.pcolor == Some(BLACK) && a.item.scolor == Some(BLACK)
    requires !a.item.flags.hasPcolor && !a.item.flags.hasScolor && a.item.sourceUrl == None && a.item.needsDownload
    ensures TextsRead(nodes, r.item)
  {
    ReadsPcolor(env, a, nodes, r);
    ReadsScolor(env, a, nodes, r);
    ReadsSource(env, a, nodes, r);
  }

  /** The item that is loaded from nodes that neither stop the loop nor crash. */
  lemma WallpaperReads(env: Env, deleted: bool, nodes: seq<Node>, r: Acc)
    requires Nodes(env, Start(env, deleted), nodes) == Going(r)
    ensures Reads(env, deleted, nodes, r)
  {
    var a := Start(env, deleted);
    OriginStays(env, a, nodes);
    ReadsPlaces(env, a, nodes, r);
    ReadsStyle(env, a, nodes, r);
    ReadsTexts(env, a, nodes, r);
    NamesFirst(env, a, nodes);
  }

  // ---- stopping and crashing ----

  lemma StopsOrNot(env: Env, a: Acc, n: Node)
    ensures Step(env, a, n).Stopped? <==> Stops(n)
    ensures Stops(n) ==> Step(env, a, n) == Stopped(a)
  {
  }

  /** The nodes from the first one that stops the loop do not matter. */
  lemma {:induction false} StopsThere(env: Env, a: Acc, nodes: seq<Node>, n: nat)
    requires FirstStop(nodes, n)
    ensures Nodes(env, a, nodes[..n]).Going? || Nodes(env, a, nodes[..n]).Crashed?
    ensures Nodes(env, a, nodes) == if n < |nodes| && Nodes(env, a, nodes[..n]).Going?
                                    then Stopped(Nodes(env, a, nodes[..n]).acc) else Nodes(env, a, nodes[..n])
    decreases |nodes|
  {
    if nodes == [] {
      assert nodes[..n] == nodes;
    } else {
      StopsOrNot(env, a, nodes[0]);
      if n == 0 {
        assert nodes[..0] == [];
      } else {
        assert nodes[..n][0] == nodes[0] && nodes[..n][1..] == nodes[1..][..n - 1];
        assert forall j :: 0 <= j < |nodes[1..]| ==> nodes[1..][j] == nodes[j + 1];
        if Step(env, a, nodes[0]).Going? {
          StopsThere(env, Step(env, a, nodes[0]).acc, nodes[1..], n - 1);
        }
      }
    }
  }

  /** The node crashes the program: a style without text, or a name without a language when there is a name
      already and the user has languages. */
  predicate Crashes(env: Env, n: Node, named: bool) {
    || (n.Element? && (n.tag == Options || n.tag == ShadeType) && n.child == LastOther)
    || (Unmarked(n) && named && env.langs != [])
  }

  /** One of the first k nodes gives a name. */
  ghost predicate NamedBefore(env: Env, nodes: seq<Node>, k: int) {
    exists j :: 0 <= j < k && j < |nodes| && (Unmarked(nodes[j]) || Translated(env, nodes[j]))
  }

  ghost predicate CrashesAt(env: Env, nodes: seq<Node>, k: int, named: bool) {
    0 <= k < |nodes| && Crashes(env, nodes[k], named || NamedBefore(env, nodes, k))
  }

  lemma StepCrashes(env: Env, a: Acc, n: Node)
    requires !Stops(n)
    ensures Step(env, a, n).Crashed? <==> Crashes(env, n, a.item.name.Some?)
  {
  }

  lemma CrashesLater(env: Env, nodes: seq<Node>, k: int, named: bool, now: bool)
    requires nodes != [] && 1 <= k
    requires now == (named || Unmarked(nodes[0]) || Translated(env, nodes[0]))
    ensures CrashesAt(env, nodes, k, named) <==> CrashesAt(env, nodes[1..], k - 1, now)
  {
    var tail := nodes[1..];
    assert forall j :: 1 <= j < |nodes| ==> nodes[j] == tail[j - 1];
    if NamedBefore(env, tail, k - 1) {
      var j :| 0 <= j < k - 1 && j < |tail| && (Unmarked(tail[j]) || Translated(env, tail[j]));
      assert Unmarked(nodes[j + 1]) || Translated(env, nodes[j + 1]);
    }
    if NamedBefore(env, nodes, k) {
      var j :| 0 <= j < k && j < |nodes| && (Unmarked(nodes[j]) || Translated(env, nodes[j]));
      assert j > 0 ==> Unmarked(tail[j - 1]) || Translated(env, tail[j - 1]);
    }
  }

  /** Exactly which nodes, none of which stops the loop, crash the program. */
  lemma {:induction false} CrashIff(env: Env, a: Acc, nodes: seq<Node>)
    requires forall j :: 0 <= j < |nodes| ==> !Stops(nodes[j])
    ensures Nodes(env, a, nodes).Crashed? <==> exists k :: CrashesAt(env, nodes, k, a.item.name.Some?)
    decreases |nodes|
  {
    if nodes != [] {
      var named := a.item.name.Some?;
      StepCrashes(env, a, nodes[0]);
      StopsOrNot(env, a, nodes[0]);
      if Step(env, a, nodes[0]).Crashed? {
        assert CrashesAt(env, nodes, 0, named);
      } else {
        var a1 := Step(env, a, nodes[0]).acc;
        StepNames(env, a, nodes[0]);
        CrashIff(env, a1, nodes[1..]);
        CrashMoves(env, nodes, named, a1.item.name.Some?);
      }
    }
  }

  lemma CrashMoves(env: Env, nodes: seq<Node>, named: bool, now: bool)
    requires nodes != [] && !Crashes(env, nodes[0], named)
    requires now == (named || Unmarked(nodes[0]) || Translated(env, nodes[0]))
    ensures (exists k :: CrashesAt(env, nodes, k, named)) <==> (exists k :: CrashesAt(env, nodes[1..], k, now))
  {
    if k :| CrashesAt(env, nodes, k, named) {
      assert k != 0;
      CrashesLater(env, nodes, k, named, now);
      assert CrashesAt(env, nodes[1..], k - 1, now);
    }
    if k :| CrashesAt(env, nodes[1..], k, now) {
      CrashesLater(env, nodes, k + 1, named, now);
      assert CrashesAt(env, nodes, k + 1, named);
    }
  }

  lemma {:induction false} SomeFirstStop(nodes: seq<Node>) returns (n: nat)
    ensures FirstStop(nodes, n)
    decreases |nodes|
  {
    if nodes == [] || Stops(nodes[0]) {
      n := 0;
    } else {
      n := SomeFirstStop(nodes[1..]);
      assert forall j :: 1 <= j < |nodes| ==> nodes[j] == nodes[1..][j - 1];
      n := n + 1;
    }
  }

  /** For every list of nodes: loading it crashes exactly when a node before the first that stops the loop
      does. */
  lemma WallpaperCrashesIff(env: Env, deleted: bool, nodes: seq<Node>, n: nat)
    requires FirstStop(nodes, n)
    ensures Nodes(env, Start(env, deleted), nodes).Crashed? <==> exists k :: CrashesAt(env, nodes[..n], k, false)
  {
    var a := Start(env, deleted);
    var named := a.item.name.Some?;
    StopsThere(env, a, nodes, n);
    CrashIff(env, a, nodes[..n]);
    assert forall k :: CrashesAt(env, nodes[..n], k, named) <==> CrashesAt(env, nodes[..n], k, false);
  }

  /** Otherwise it gives what the nodes before that one say. */
  lemma WallpaperLoads(env: Env, deleted: bool, nodes: seq<Node>, n: nat, a: Acc)
    requires FirstStop(nodes, n)
    requires !Nodes(env, Start(env, deleted), nodes).Crashed? && a == Nodes(env, Start(env, deleted), nodes).acc
    ensures Reads(env, deleted, nodes[..n], a)
  {
    StopsThere(env, Start(env, deleted), nodes, n);
    WallpaperReads(env, deleted, nodes[..n], a);
  }

  // ---- enumerations ----

  /** Nicks, the two old spellings of a shading, and anything else. */
  lemma EnumTexts(k: nat, s: string)
    ensures k < |STYLES| ==> EnumValue(STYLES, STYLES[k]) == k
    ensures k < |SHADINGS| ==> EnumValue(SHADINGS, SHADINGS[k]) == k
    ensures EnumValue(SHADINGS, "vertical-gradient") == 1 && EnumValue(SHADINGS, "horizontal-gradient") == 2
    ensures s !in SHADINGS && s != "vertical-gradient" && s != "horizontal-gradient" ==> EnumValue(SHADINGS, s) == 0
  {
    NicksAreDistinct();
    if k < |STYLES| {
      EnumRoundTrip(STYLES, k);
    }
    if k < |SHADINGS| {
      EnumRoundTrip(SHADINGS, k);
    }
    OldSpellings();
  }

  lemma OldSpellings()
    ensures EnumValue(SHADINGS, "vertical-gradient") == 1 && EnumValue(SHADINGS, "horizontal-gradient") == 2
  {
    var v, h: string := "vertical-gradient", "horizontal-gradient";
    assert |v| == 17 && |h| == 19 && v[0] == 'v' && h[0] == 'h';
    assert |SHADINGS[0]| == 5 && |SHADINGS[1]| == 8 && |SHADINGS[2]| == 10;
  }

  // ---- when two wallpapers of a file are the same ----

  /** The picture that goes into the identifier. */
  function Picture(a: Acc): Option<string> { if a.bgUri.Some? then a.bgUri else a.bgUriDark }

  lemma {:induction false} UpToHash(x: string, y: string, s: string, t: string)
    requires '#' !in x && '#' !in y && x + ['#'] + s == y + ['#'] + t
    ensures x == y && s == t
  {
    var l, r := x + ['#'] + s, y + ['#'] + t;
    if x == [] || y == [] {
      assert l[0] == r[0];
      assert x == y == [];
      assert l[1..] == s && r[1..] == t;
    } else {
      assert l[0] == r[0] && x[0] == y[0];
      assert l[1..] == x[1..] + ['#'] + s && r[1..] == y[1..] + ['#'] + t;
      UpToHash(x[1..], y[1..], s, t);
      assert x == [x[0]] + x[1..] && y == [y[0]] + y[1..];
    }
  }

  /** Wallpapers of one file whose untranslated names contain no '#' have the same identifier exactly when
      these names and their pictures are the same. */
  lemma SameIdIff(env: Env, a: Acc, b: Acc)
    requires '#' !in Printed(a.cname) && '#' !in Printed(b.cname)
    ensures IdOf(env, a) == IdOf(env, b) <==> Printed(a.cname) == Printed(b.cname) && Picture(a) == Picture(b)
  {
    var n := |env.fileUri| + 1;
    var x, y := Printed(a.cname), Printed(b.cname);
    var s := if Picture(a).Some? then ['#'] + Picture(a).value else [];
    var t := if Picture(b).Some? then ['#'] + Picture(b).value else [];
    assert IdOf(env, a) == env.fileUri + ['#'] + (x + s) && IdOf(env, b) == env.fileUri + ['#'] + (y + t);
    if IdOf(env, a) == IdOf(env, b) {
      assert IdOf(env, a)[n..] == x + s && IdOf(env, b)[n..] == y + t;
      SameTail(x, s, y, t, Picture(a), Picture(b));
    }
  }

  lemma OnlyOnePicture(x: string, y: string, v: string)
    requires '#' !in x && '#' !in y
    ensures x + (['#'] + v) != y + [] && x + [] != y + (['#'] + v)
  {
    HashInside(x, v);
    HashInside(y, v);
    assert x + [] == x && y + [] == y;
  }

  lemma HashInside(x: string, v: string)
    ensures '#' in x + (['#'] + v)
  {
    assert (x + (['#'] + v))[|x|] == '#';
  }

  lemma SameTail(x: string, s: string, y: string, t: string, p: Option<string>, q: Option<string>)
    requires '#' !in x && '#' !in y && x + s == y + t
    requires s == (if p.Some? then ['#'] + p.value else []) && t == (if q.Some? then ['#'] + q.value else [])
    ensures x == y && p == q
  {
    if p.Some? && q.Some? {
      assert x + ['#'] + p.value == x + s && y + ['#'] + q.value == y + t;
      UpToHash(x, y, p.value, q.value);
    } else if p.Some? || q.Some? {
      OnlyOnePicture(x, y, if p.Some? then p.value else q.value);
    } else {
      assert x + s == x && y + t == y;
    }
  }

  /** Without that hypothesis two can be taken for one: a name that goes on like the other's picture. */
  lemma HashedNameWitness(env: Env, a: Acc, b: Acc)
    requires a.cname == Some("a#b") && a.bgUri == None && a.bgUriDark == None
    requires b.cname == Some("a") && b.bgUri == Some("b")
    ensures IdOf(env, a) == IdOf(env, b)
  {
    assert "a" + ['#'] + "b" == "a#b";
    assert IdOf(env, b) == env.fileUri + ['#'] + ("a" + ['#'] + "b");
    assert IdOf(env, a) == env.fileUri + ['#'] + "a#b";
  }
}
