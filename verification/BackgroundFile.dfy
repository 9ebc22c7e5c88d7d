/** The XML files that describe backgrounds: saving an item, and loading a file into the set of known
    backgrounds.  Parsing and printing of XML text is libxml2's; a document is its tree, and a file may
    have white space and comments between elements. */
module BackgroundFile {
  import opened Text
  import opened BackgroundItem
  import SearchMatch

  datatype Tag = Filename | FilenameDark | NameTag | Options | ShadeType | PcolorTag | ScolorTag | SourceUrlTag
               | OtherTag(tag: string)

  /** The last child of an element: none, text, or a node without text. */
  datatype Child = NoChild | LastText(text: string) | LastOther

  datatype Node = Comment | Blank(space: string) | Element(tag: Tag, lang: Option<string>, child: Child)

  /** A child of the root: a wallpaper element or anything else. */
  datatype Entry = Wallpaper(deleted: bool, nodes: seq<Node>) | OtherEntry

  /** What the file system and the locale say: the uri of a path written in this file, the path of a
      uri, which uris exist, the file's own name and uri, and the user's languages. */
  datatype Env = Env(uriOf: string -> string, pathOf: string -> Option<string>, fileExists: string -> bool,
                     filename: string, fileUri: string, langs: seq<string>)

  const NONE: string := "(none)"

  // ---- enumerations as text ----

  function IndexIn(nicks: seq<string>, s: string): (r: Option<nat>)
    ensures r.Some? ==> r.value < |nicks| && nicks[r.value] == s
    ensures r == None ==> s !in nicks
  {
    if nicks == [] then None
    else if nicks[0] == s then Some(0)
    else
      var r := IndexIn(nicks[1..], s);
      if r == None then None else Some(r.value + 1)
  }

  /** enum_string_to_value: a nick, else one of two old spellings of a shading, else 0. */
  function EnumValue(nicks: seq<string>, s: string): nat {
    var r := IndexIn(nicks, s);
    if r.Some? then r.value
    else if s == "horizontal-gradient" then HORIZONTAL
    else if s == "vertical-gradient" then VERTICAL
    else 0
  }

  predicate Distinct(nicks: seq<string>) { forall i, j :: 0 <= i < j < |nicks| ==> nicks[i] != nicks[j] }

  lemma EnumRoundTrip(nicks: seq<string>, v: nat)
    requires Distinct(nicks) && v < |nicks|
    ensures EnumValue(nicks, nicks[v]) == v
  {
    var r := IndexIn(nicks, nicks[v]);
    assert r.Some?;
    assert r.value == v;
  }

  /** The nicks differ by length or first letter, and none is changed by stripping. */
  lemma NicksAreDistinct()
    ensures Distinct(STYLES) && Distinct(SHADINGS)
    ensures forall k :: 0 <= k < |STYLES| ==> SearchMatch.Solid(STYLES[k]) && STYLES[k] != ""
    ensures forall k :: 0 <= k < |SHADINGS| ==> SearchMatch.Solid(SHADINGS[k]) && SHADINGS[k] != ""
  {
    assert STYLES[0][0] == 'n' && STYLES[1][0] == 'w' && STYLES[2][0] == 'c' && STYLES[3][0] == 's'
        && STYLES[4][0] == 's' && STYLES[5][0] == 'z' && STYLES[6][0] == 's';
    assert STYLES[3][1] == 'c' && STYLES[4][1] == 't' && STYLES[6][1] == 'p';
    assert SHADINGS[0][0] == 's' && SHADINGS[1][0] == 'v' && SHADINGS[2][0] == 'h';
  }

  // ---- loading ----

  datatype Acc = Acc(item: Item, cname: Option<string>, bgUri: Option<string>, bgUriDark: Option<string>)

  /** The loop over the nodes goes on, is left by break, or the program crashes. */
  datatype Progress = Going(acc: Acc) | Stopped(acc: Acc) | Crashed

  function Strip(s: string): string { SearchMatch.Strip(s) }

  function UriOfText(env: Env, text: string): Option<string> {
    if Strip(text) == NONE then None else Some(env.uriOf(Strip(text)))
  }

  function StepName(env: Env, a: Acc, lang: Option<string>, text: string): Progress {
    if a.item.name == None && lang == None then
      Going(a.(cname := Some(Strip(text)), item := a.item.(name := Some(Strip(text)))))
    else if env.langs == [] then Going(a)
    else if lang == None then Crashed
    else if lang.value in env.langs then Going(a.(item := a.item.(name := Some(Strip(text)))))
    else Going(a)
  }

  function TextOf(c: Child): Option<string> { if c.LastText? then Some(Strip(c.text)) else None }

  function StepPlacement(a: Acc, c: Child): Progress {
    match c
    case NoChild => Going(a)
    case LastText(text) => Going(a.(item := SetPlacement(a.item, EnumValue(STYLES, Strip(text)))))
    case LastOther => Crashed
  }

  function StepShading(a: Acc, c: Child): Progress {
    match c
    case NoChild => Going(a)
    case LastText(text) => Going(a.(item := SetShading(a.item, EnumValue(SHADINGS, Strip(text)))))
    case LastOther => Crashed
  }

  /** One node of a wallpaper element. */
  function Step(env: Env, a: Acc, n: Node): Progress {
    match n
    case Comment => Going(a)
    case Blank(_) => Going(a)
    case Element(tag, lang, c) =>
      match tag
      case Filename =>
        if !c.LastText? then Stopped(a)
        else Going(a.(bgUri := UriOfText(env, c.text), item := SetUri(a.item, UriOfText(env, c.text))))
      case FilenameDark =>
        if !c.LastText? then Stopped(a)
        else Going(a.(bgUriDark := UriOfText(env, c.text), item := SetUriDark(a.item, UriOfText(env, c.text))))
      case NameTag => if !c.LastText? then Stopped(a) else StepName(env, a, lang, c.text)
      case Options => StepPlacement(a, c)
      case ShadeType => StepShading(a, c)
      case PcolorTag => Going(if c == NoChild then a else a.(item := SetPcolor(a.item, TextOf(c))))
      case ScolorTag => Going(if c == NoChild then a else a.(item := SetScolor(a.item, TextOf(c))))
      case SourceUrlTag =>
        Going(if c == NoChild then a else a.(item := a.item.(sourceUrl := TextOf(c), needsDownload := false)))
      case OtherTag(_) => Going(a)
  }

  function Nodes(env: Env, a: Acc, nodes: seq<Node>): Progress
    decreases |nodes|
  {
    if nodes == [] then Going(a)
    else
      var p := Step(env, a, nodes[0]);
      if p.Going? then Nodes(env, p.acc, nodes[1..]) else p
  }

  function Start(env: Env, deleted: bool): Acc {
    Acc(New(None).(isDeleted := deleted, sourceXml := Some(env.filename)), None, None, None)
  }

  /** What wp_hash holds, and the items signalled so far. */
  datatype Known = Known(ids: set<string>, added: seq<Item>)

  /** printf of a string that may be NULL */
  function Printed(s: Option<string>): string { if s.Some? then s.value else "(null)" }

  function IdOf(env: Env, a: Acc): string {
    env.fileUri + ['#'] + Printed(a.cname) +
    if a.bgUri.Some? then ['#'] + a.bgUri.value
    else if a.bgUriDark.Some? then ['#'] + a.bgUriDark.value
    else []
  }

  /** The picture of the item, if it has one, exists. */
  predicate Present(env: Env, i: Item) { i.uri.Some? ==> env.fileExists(i.uri.value) }

  function Finish(env: Env, k: Known, a: Acc): Known {
    if !Present(env, a.item) || IdOf(env, a) in k.ids then k
    else Known(k.ids + {IdOf(env, a)}, k.added + [a.item])
  }

  /** One child of the root; None is a crash. */
  function LoadEntry(env: Env, k: Known, e: Entry): Option<Known> {
    if e.OtherEntry? then Some(k)
    else
      var p := Nodes(env, Start(env, e.deleted), e.nodes);
      if p.Crashed? then None else Some(Finish(env, k, p.acc))
  }

  /** cc_background_xml_load_xml_internal */
  function Load(env: Env, k: Known, doc: seq<Entry>): Option<Known>
    decreases |doc|
  {
    if doc == [] then Some(k)
    else
      var r := LoadEntry(env, k, doc[0]);
      if r == None then None else Load(env, r.value, doc[1..])
  }

  // ---- saving ----

  /** xmlNewTextChild; an empty text leaves no child in the file. */
  function TextChild(tag: Tag, text: Option<string>): Node {
    Element(tag, None, if text == None || text == Some("") then NoChild else LastText(text.value))
  }

  function If(b: bool, n: Node): seq<Node> { if b then [n] else [] }

  function NameNodes(i: Item): seq<Node> { [TextChild(NameTag, i.name)] }

  function FileNodes(env: Env, i: Item): seq<Node> {
    If(i.flags.hasUri, TextChild(Filename, if i.uri.Some? then env.pathOf(i.uri.value) else Some(NONE)))
  }

  function PlacementNodes(i: Item): seq<Node>
    requires i.placement < |STYLES|
  {
    If(i.flags.hasPlacement, TextChild(Options, Some(STYLES[i.placement])))
  }

  function ShadingNodes(i: Item): seq<Node>
    requires i.shading < |SHADINGS|
  {
    If(i.flags.hasShading, TextChild(ShadeType, Some(SHADINGS[i.shading])))
  }

  function ColorNodes(i: Item): seq<Node> {
    If(i.flags.hasPcolor, TextChild(PcolorTag, i.pcolor)) + If(i.flags.hasScolor, TextChild(ScolorTag, i.scolor))
  }

  function SourceNodes(i: Item): seq<Node> { If(i.sourceUrl.Some?, TextChild(SourceUrlTag, i.sourceUrl)) }

  /** The children of the wallpaper element that cc_background_xml_save writes. */
  function Saved(env: Env, i: Item): seq<Node>
    requires i.placement < |STYLES| && i.shading < |SHADINGS|
  {
    NameNodes(i) + FileNodes(env, i) + PlacementNodes(i) + ShadingNodes(i) + ColorNodes(i) + SourceNodes(i)
  }

  // ---- white space and comments do not matter ----

  predicate Ignorable(n: Node) { n == Comment || n.Blank? }

  function Significant(nodes: seq<Node>): seq<Node> {
    if nodes == [] then []
    else (if Ignorable(nodes[0]) then [] else [nodes[0]]) + Significant(nodes[1..])
  }

  lemma {:induction false} BlanksDoNotMatter(env: Env, a: Acc, nodes: seq<Node>)
    ensures Nodes(env, a, nodes) == Nodes(env, a, Significant(nodes))
    decreases |nodes|
  {
    if nodes != [] {
      var p := Step(env, a, nodes[0]);
      if p.Going? {
        BlanksDoNotMatter(env, p.acc, nodes[1..]);
      }
      if Ignorable(nodes[0]) {
        assert Significant(nodes) == Significant(nodes[1..]);
      } else {
        assert Significant(nodes)[0] == nodes[0] && Significant(nodes)[1..] == Significant(nodes[1..]);
      }
    }
  }

  lemma {:induction false} NodesAppend(env: Env, a: Acc, x: seq<Node>, y: seq<Node>)
    ensures Nodes(env, a, x + y) ==
            var p := Nodes(env, a, x); if p.Going? then Nodes(env, p.acc, y) else p
    decreases |x|
  {
    if x == [] {
      assert x + y == y;
    } else {
      assert (x + y)[1..] == x[1..] + y;
      var p := Step(env, a, x[0]);
      if p.Going? {
        NodesAppend(env, p.acc, x[1..], y);
      }
    }
  }

  // ---- when loading undoes saving ----

  /** The text is there, and stripping leaves it alone. */
  predicate Trimmed(s: Option<string>) { s.Some? && s.value != "" && Strip(s.value) == s.value }

  /** The item has no picture, or one with a local path that names it when read from the saved file. */
  predicate Located(env: Env, i: Item) {
    i.uri.Some? ==>
      var path := env.pathOf(i.uri.value);
      && path.Some? && path.value != "" && Strip(path.value) != NONE
      && env.uriOf(Strip(path.value)) == i.uri.value
  }

  /** The item's texts come back as they are. */
  predicate Writable(i: Item) {
    && Trimmed(i.name)
    && (i.flags.hasPcolor ==> Trimmed(i.pcolor)) && (i.flags.hasScolor ==> Trimmed(i.scolor))
    && (i.sourceUrl.Some? ==> Trimmed(i.sourceUrl))
  }

  /** The one nameless item that comes back: nothing else was set either. */
  predicate OtherwiseBlank(i: Item) {
    && i.name == None && i.uri == None && i.sourceUrl == None
    && !i.flags.hasPlacement && !i.flags.hasShading && !i.flags.hasPcolor && !i.flags.hasScolor
  }

  /** What a caller can check before saving. */
  predicate Returns(env: Env, i: Item) { (Writable(i) && Located(env, i)) || OtherwiseBlank(i) }

  predicate InRange(i: Item) { i.placement < |STYLES| && i.shading < |SHADINGS| }

  /** What should come back: the item without its dark variant, named after the file it was read from. */
  function Restored(env: Env, i: Item): Item {
    i.(uriDark := None, sourceXml := Some(env.filename), isDeleted := false,
       needsDownload := i.sourceUrl == None, flags := i.flags.(hasUriDark := false))
  }

  /** The text that a node with this text has in the file. */
  predicate Shown(s: Option<string>) { s.Some? && s.value != "" }

  lemma OneNode(env: Env, a: Acc, n: Node)
    ensures Nodes(env, a, [n]) == Step(env, a, n)
  {
    assert [n][1..] == [];
  }

  lemma StripSolid(s: string)
    requires s != "" && SearchMatch.Solid(s)
    ensures Strip(s) == s
  {
  }

  // ---- what each part of the saved nodes does when it is loaded ----

  function AfterName(a: Acc, i: Item): Acc
    requires i.name.Some?
  {
    a.(cname := Some(Strip(i.name.value)), item := a.item.(name := Some(Strip(i.name.value))))
  }

  lemma NameLoads(env: Env, a: Acc, i: Item)
    requires a.item.name == None
    ensures Nodes(env, a, NameNodes(i)) == if Shown(i.name) then Going(AfterName(a, i)) else Stopped(a)
  {
    OneNode(env, a, TextChild(NameTag, i.name));
  }

  function PathText(env: Env, i: Item): Option<string> {
    if i.uri.Some? then env.pathOf(i.uri.value) else Some(NONE)
  }

  function AfterFile(env: Env, a: Acc, i: Item): Acc
    requires PathText(env, i).Some?
  {
    var u := UriOfText(env, PathText(env, i).value);
    a.(bgUri := u, item := SetUri(a.item, u))
  }

  lemma FileLoads(env: Env, a: Acc, i: Item)
    requires i.flags.hasUri
    ensures Nodes(env, a, FileNodes(env, i)) ==
            if Shown(PathText(env, i)) then Going(AfterFile(env, a, i)) else Stopped(a)
  {
    OneNode(env, a, TextChild(Filename, PathText(env, i)));
  }

  lemma NickLoads(nicks: seq<string>, v: nat)
    requires Distinct(nicks) && v < |nicks| && SearchMatch.Solid(nicks[v]) && nicks[v] != ""
    ensures EnumValue(nicks, Strip(nicks[v])) == v
  {
    StripSolid(nicks[v]);
    EnumRoundTrip(nicks, v);
  }

  function AfterPlacement(a: Acc, i: Item): Acc {
    if i.flags.hasPlacement then a.(item := SetPlacement(a.item, i.placement)) else a
  }

  lemma PlacementLoads(env: Env, a: Acc, i: Item)
    requires i.placement < |STYLES|
    ensures Nodes(env, a, PlacementNodes(i)) == Going(AfterPlacement(a, i))
  {
    NicksAreDistinct();
    NickLoads(STYLES, i.placement);
    OneNode(env, a, TextChild(Options, Some(STYLES[i.placement])));
  }

  function AfterShading(a: Acc, i: Item): Acc {
    if i.flags.hasShading then a.(item := SetShading(a.item, i.shading)) else a
  }

  lemma ShadingLoads(env: Env, a: Acc, i: Item)
    requires i.shading < |SHADINGS|
    ensures Nodes(env, a, ShadingNodes(i)) == Going(AfterShading(a, i))
  {
    NicksAreDistinct();
    NickLoads(SHADINGS, i.shading);
    OneNode(env, a, TextChild(ShadeType, Some(SHADINGS[i.shading])));
  }

  function AfterPcolor(a: Acc, i: Item): Acc {
    if i.flags.hasPcolor && Shown(i.pcolor) then a.(item := SetPcolor(a.item, Some(Strip(i.pcolor.value)))) else a
  }

  function AfterScolor(a: Acc, i: Item): Acc {
    if i.flags.hasScolor && Shown(i.scolor) then a.(item := SetScolor(a.item, Some(Strip(i.scolor.value)))) else a
  }

  lemma ColorsLoad(env: Env, a: Acc, i: Item)
    ensures Nodes(env, a, ColorNodes(i)) == Going(AfterScolor(AfterPcolor(a, i), i))
  {
    var p, s := TextChild(PcolorTag, i.pcolor), TextChild(ScolorTag, i.scolor);
    NodesAppend(env, a, If(i.flags.hasPcolor, p), If(i.flags.hasScolor, s));
    OneNode(env, a, p);
    OneNode(env, AfterPcolor(a, i), s);
  }

  function AfterSource(a: Acc, i: Item): Acc {
    if Shown(i.sourceUrl)
    then a.(item := a.item.(sourceUrl := Some(Strip(i.sourceUrl.value)), needsDownload := false)) else a
  }

  lemma SourceLoads(env: Env, a: Acc, i: Item)
    ensures Nodes(env, a, SourceNodes(i)) == Going(AfterSource(a, i))
  {
    OneNode(env, a, TextChild(SourceUrlTag, i.sourceUrl));
  }

  /** What the nodes after the file name do. */
  function AfterRest(a: Acc, i: Item): Acc {
    AfterSource(AfterScolor(AfterPcolor(AfterShading(AfterPlacement(a, i), i), i), i), i)
  }

  function RestNodes(i: Item): seq<Node>
    requires InRange(i)
  {
    PlacementNodes(i) + ShadingNodes(i) + ColorNodes(i) + SourceNodes(i)
  }

  lemma EnumsLoad(env: Env, a: Acc, i: Item)
    requires InRange(i)
    ensures Nodes(env, a, PlacementNodes(i) + ShadingNodes(i)) == Going(AfterShading(AfterPlacement(a, i), i))
  {
    PlacementLoads(env, a, i);
    ShadingLoads(env, AfterPlacement(a, i), i);
    NodesAppend(env, a, PlacementNodes(i), ShadingNodes(i));
  }

  lemma RestLoads(env: Env, a: Acc, i: Item)
    requires InRange(i)
    ensures Nodes(env, a, RestNodes(i)) == Going(AfterRest(a, i))
  {
    var a1 := AfterShading(AfterPlacement(a, i), i);
    var enums := PlacementNodes(i) + ShadingNodes(i);
    EnumsLoad(env, a, i);
    ColorsLoad(env, a1, i);
    SourceLoads(env, AfterScolor(AfterPcolor(a1, i), i), i);
    NodesAppend(env, a, enums, ColorNodes(i));
    NodesAppend(env, a, enums + ColorNodes(i), SourceNodes(i));
  }

  /** What loading the saved nodes leaves: everything, or what came before a node without text. */
  function Loaded(env: Env, i: Item): Acc {
    var a := Start(env, false);
    if !Shown(i.name) then a
    else if !Shown(PathText(env, i)) then AfterName(a, i)
    else AfterRest(AfterFile(env, AfterName(a, i), i), i)
  }

  lemma SavedLoads(env: Env, i: Item)
    requires Faithful(i) && InRange(i)
    ensures var p := Nodes(env, Start(env, false), Saved(env, i)); !p.Crashed? && p.acc == Loaded(env, i)
  {
    var a := Start(env, false);
    var rest := RestNodes(i);
    assert Saved(env, i) == NameNodes(i) + (FileNodes(env, i) + rest);
    NameLoads(env, a, i);
    NodesAppend(env, a, NameNodes(i), FileNodes(env, i) + rest);
    if Shown(i.name) {
      var a1 := AfterName(a, i);
      FileLoads(env, a1, i);
      NodesAppend(env, a1, FileNodes(env, i), rest);
      if Shown(PathText(env, i)) {
        RestLoads(env, AfterFile(env, a1, i), i);
      }
    }
  }

  // ---- comparing with what should come back ----

  /** Placement and shading come back; an unflagged one had its initial value. */
  lemma EnumsRestored(a: Acc, i: Item)
    requires Faithful(i) && a.item.placement == SCALED && a.item.shading == SOLID
    ensures AfterShading(AfterPlacement(a, i), i).item == a.item.(
      placement := i.placement, shading := i.shading,
      flags := a.item.flags.(hasPlacement := a.item.flags.hasPlacement || i.flags.hasPlacement,
                             hasShading := a.item.flags.hasShading || i.flags.hasShading))
  {
  }

  /** A colour and its flag come back exactly when the colour is trimmed, if it is flagged. */
  lemma PcolorRestored(a: Acc, i: Item)
    requires Faithful(i) && a.item.pcolor == Some(BLACK) && !a.item.flags.hasPcolor
    ensures var r := AfterPcolor(a, i).item;
      && r == a.item.(pcolor := r.pcolor, flags := a.item.flags.(hasPcolor := r.flags.hasPcolor))
      && ((r.pcolor == i.pcolor && r.flags.hasPcolor == i.flags.hasPcolor) <==> (i.flags.hasPcolor ==> Trimmed(i.pcolor)))
  {
  }

  lemma ScolorRestored(a: Acc, i: Item)
    requires Faithful(i) && a.item.scolor == Some(BLACK) && !a.item.flags.hasScolor
    ensures var r := AfterScolor(a, i).item;
      && r == a.item.(scolor := r.scolor, flags := a.item.flags.(hasScolor := r.flags.hasScolor))
      && ((r.scolor == i.scolor && r.flags.hasScolor == i.flags.hasScolor) <==> (i.flags.hasScolor ==> Trimmed(i.scolor)))
  {
  }

  lemma SourceRestored(a: Acc, i: Item)
    requires a.item.sourceUrl == None && a.item.needsDownload
    ensures var r := AfterSource(a, i).item;
      && r == a.item.(sourceUrl := r.sourceUrl, needsDownload := r.needsDownload)
      && ((r.sourceUrl == i.sourceUrl && r.needsDownload == (i.sourceUrl == None)) <==>
          (i.sourceUrl.Some? ==> Trimmed(i.sourceUrl)))
  {
  }

  /** The item that the nodes after the file name are applied to: fresh but for its name and file. */
  predicate Named(a: Acc) {
    a.item == BLANK.(name := a.item.name, uri := a.item.uri, sourceXml := a.item.sourceXml,
                     flags := NO_FLAGS.(hasUri := true))
  }

  lemma RestRestores(a: Acc, i: Item)
    requires Faithful(i) && Named(a)
    ensures AfterRest(a, i).item == i.(name := a.item.name, uri := a.item.uri, uriDark := None,
              sourceXml := a.item.sourceXml, isDeleted := false, needsDownload := i.sourceUrl == None,
              flags := i.flags.(hasUriDark := false)) <==>
            ((i.flags.hasPcolor ==> Trimmed(i.pcolor)) && (i.flags.hasScolor ==> Trimmed(i.scolor))
             && (i.sourceUrl.Some? ==> Trimmed(i.sourceUrl)))
    ensures AfterRest(a, i).item.name == a.item.name && AfterRest(a, i).item.uri == a.item.uri
  {
    var a1 := AfterShading(AfterPlacement(a, i), i);
    EnumsRestored(a, i);
    var a2 := AfterPcolor(a1, i);
    PcolorRestored(a1, i);
    var a3 := AfterScolor(a2, i);
    ScolorRestored(a2, i);
    SourceRestored(a3, i);
  }

  lemma UriRestored(env: Env, i: Item)
    requires i.uri != Some("") && Shown(PathText(env, i))
    ensures NonEmpty(UriOfText(env, PathText(env, i).value)) == i.uri <==> Located(env, i)
  {
    StripSolid(NONE);
  }

  /** Exactly when the loaded item is the saved one without its dark variant. */
  lemma LoadedIff(env: Env, i: Item)
    requires Faithful(i) && InRange(i)
    ensures Loaded(env, i).item == Restored(env, i) <==> Returns(env, i)
  {
    if Shown(i.name) && Shown(PathText(env, i)) {
      var a := AfterFile(env, AfterName(Start(env, false), i), i);
      RestRestores(a, i);
      UriRestored(env, i);
    }
  }

  predicate AllOther(entries: seq<Entry>) { forall k :: 0 <= k < |entries| ==> entries[k].OtherEntry? }

  lemma {:induction false} OthersDoNotMatter(env: Env, k: Known, others: seq<Entry>, rest: seq<Entry>)
    requires AllOther(others)
    ensures Load(env, k, others + rest) == Load(env, k, rest)
    decreases |others|
  {
    if others == [] {
      assert others + rest == rest;
    } else {
      assert (others + rest)[1..] == others[1..] + rest;
      OthersDoNotMatter(env, k, others[1..], rest);
    }
  }

  lemma FileWithOneEntry(env: Env, k: Known, before: seq<Entry>, e: Entry, after: seq<Entry>)
    requires AllOther(before) && AllOther(after) && LoadEntry(env, k, e).Some?
    ensures Load(env, k, before + [e] + after) == LoadEntry(env, k, e)
  {
    OthersDoNotMatter(env, k, before, [e] + after);
    assert before + [e] + after == before + ([e] + after);
    assert ([e] + after)[1..] == after;
    OthersDoNotMatter(env, LoadEntry(env, k, e).value, after, []);
    assert after + [] == after;
  }

  /** What loading a saved file into a fresh object signals, with any white space and comments between its
      elements: what came before the first node without text. */
  lemma LoadOfSaved(env: Env, i: Item, nodes: seq<Node>, before: seq<Entry>, after: seq<Entry>)
    requires Faithful(i) && InRange(i)
    requires Significant(nodes) == Saved(env, i) && AllOther(before) && AllOther(after)
    ensures var k := Load(env, Known({}, []), before + [Wallpaper(false, nodes)] + after);
      var item := Loaded(env, i).item;
      k.Some? && k.value.added == if Present(env, item) then [item] else []
  {
    var k := Known({}, []);
    SavedLoads(env, i);
    BlanksDoNotMatter(env, Start(env, false), nodes);
    FileWithOneEntry(env, k, before, Wallpaper(false, nodes), after);
  }

  /** Loading a saved file into a fresh object signals exactly the saved item without its dark variant, if
      and only if its texts come back as they are (Returns) and its picture, if any, still exists. */
  lemma LoadUndoesSave(env: Env, i: Item, nodes: seq<Node>, before: seq<Entry>, after: seq<Entry>)
    requires Faithful(i) && InRange(i)
    requires Significant(nodes) == Saved(env, i) && AllOther(before) && AllOther(after)
    ensures var k := Load(env, Known({}, []), before + [Wallpaper(false, nodes)] + after);
      k.Some? && (k.value.added == [Restored(env, i)] <==> Returns(env, i) && Present(env, i))
  {
    LoadOfSaved(env, i, nodes, before, after);
    LoadedIff(env, i);
    assert Present(env, Restored(env, i)) <==> Present(env, i);
  }

  /** The name is essential: an item saved without one comes back blank, whatever else it had. */
  lemma NamelessIsLost(env: Env, i: Item, k: Known)
    requires InRange(i) && !Shown(i.name)
    ensures var a := Start(env, false);
      && Nodes(env, a, Saved(env, i)) == Stopped(a)
      && LoadEntry(env, k, Wallpaper(false, Saved(env, i))) == Some(Finish(env, k, a))
  {
    var a := Start(env, false);
    var nodes := Saved(env, i);
    assert nodes[0] == Element(NameTag, None, NoChild);
    assert Step(env, a, nodes[0]) == Stopped(a);
  }

  // ---- loading again ----

  /** The entry would not be added any more. */
  ghost predicate Handled(env: Env, k: Known, e: Entry) { LoadEntry(env, k, e) == Some(k) }

  lemma EntryHandled(env: Env, k: Known, e: Entry, later: Known)
    requires LoadEntry(env, k, e).Some? && LoadEntry(env, k, e).value.ids <= later.ids
    ensures Handled(env, later, e)
  {
  }

  lemma {:induction false} LoadGrows(env: Env, k: Known, doc: seq<Entry>)
    requires Load(env, k, doc).Some?
    ensures var r := Load(env, k, doc).value;
      && k.ids <= r.ids && k.added <= r.added
      && |r.added| - |k.added| == |r.ids| - |k.ids|
    decreases |doc|
  {
    if doc != [] {
      LoadGrows(env, LoadEntry(env, k, doc[0]).value, doc[1..]);
    }
  }

  lemma {:induction false} AllHandled(env: Env, k: Known, doc: seq<Entry>, j: nat)
    requires Load(env, k, doc).Some? && j < |doc|
    ensures Handled(env, Load(env, k, doc).value, doc[j])
    decreases |doc|
  {
    var k1 := LoadEntry(env, k, doc[0]).value;
    if j == 0 {
      LoadGrows(env, k1, doc[1..]);
      EntryHandled(env, k, doc[0], Load(env, k, doc).value);
    } else {
      AllHandled(env, k1, doc[1..], j - 1);
    }
  }

  lemma {:induction false} HandledLoadsNothing(env: Env, k: Known, doc: seq<Entry>)
    requires forall j :: 0 <= j < |doc| ==> Handled(env, k, doc[j])
    ensures Load(env, k, doc) == Some(k)
    decreases |doc|
  {
    if doc != [] {
      assert Handled(env, k, doc[0]);
      forall j | 0 <= j < |doc[1..]| ensures Handled(env, k, doc[1..][j]) {
        assert doc[1..][j] == doc[j + 1];
      }
      HandledLoadsNothing(env, k, doc[1..]);
    }
  }

  /** Loading any file a second time signals nothing: each identifier is signalled once. */
  lemma LoadingAgainAddsNothing(env: Env, k: Known, doc: seq<Entry>)
    requires Load(env, k, doc).Some?
    ensures var r := Load(env, k, doc).value;
      && Load(env, r, doc) == Some(r)
      && |r.added| - |k.added| == |r.ids| - |k.ids|
  {
    var r := Load(env, k, doc).value;
    forall j | 0 <= j < |doc| ensures Handled(env, r, doc[j]) {
      AllHandled(env, k, doc, j);
    }
    HandledLoadsNothing(env, r, doc);
    LoadGrows(env, k, doc);
  }
}
