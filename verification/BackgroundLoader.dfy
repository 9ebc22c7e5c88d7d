/** The loader and the writer as they work step by step, proved against module BackgroundFile. */
module BackgroundLoader {
  import opened Text
  import opened BackgroundItem
  import opened BackgroundFile
  import opened BackgroundNodes

  /** The inner loop: the nodes of one wallpaper element change the item and three local strings. */
  method LoadWallpaper(env: Env, deleted: bool, nodes: seq<Node>) returns (a: Acc)
    requires !Nodes(env, Start(env, deleted), nodes).Crashed?
    ensures a == Nodes(env, Start(env, deleted), nodes).acc
    ensures forall n: nat :: FirstStop(nodes, n) ==> Reads(env, deleted, nodes[..n], a)
  {
    ghost var whole := Nodes(env, Start(env, deleted), nodes);
    var item := New(None).(isDeleted := deleted, sourceXml := Some(env.filename));
    var cname: Option<string>, bgUri: Option<string>, bgUriDark: Option<string> := None, None, None;
    var i := 0;
    assert nodes[0..] == nodes;
    while i < |nodes|
      invariant 0 <= i <= |nodes|
      invariant Nodes(env, Acc(item, cname, bgUri, bgUriDark), nodes[i..]) == whole
    {
      ghost var before := Acc(item, cname, bgUri, bgUriDark);
      var wpa := nodes[i];
      assert nodes[i..][0] == wpa && nodes[i..][1..] == nodes[i + 1..];
      i := i + 1;
      if wpa.Element? {
        var text := TextOf(wpa.child);
        if wpa.tag == Filename || wpa.tag == FilenameDark || wpa.tag == NameTag {
          if text == None {
            break;
          }
          if wpa.tag == Filename {
            bgUri := UriOfText(env, wpa.child.text);
            item := SetUri(item, bgUri);
          } else if wpa.tag == FilenameDark {
            bgUriDark := UriOfText(env, wpa.child.text);
            item := SetUriDark(item, bgUriDark);
          } else if item.name == None && wpa.lang == None {
            cname := text;
            item := item.(name := text);
          } else {
            var matches := LanguageMatches(env, wpa.lang);
            if matches {
              item := item.(name := text);
            }
          }
        } else if wpa.child != NoChild {
          item := Applied(item, wpa.tag, text);
        }
      }
      assert Step(env, before, wpa) == Going(Acc(item, cname, bgUri, bgUriDark));
    }
    a := Acc(item, cname, bgUri, bgUriDark);
    forall n: nat | FirstStop(nodes, n) ensures Reads(env, deleted, nodes[..n], a) {
      WallpaperLoads(env, deleted, nodes, n, a);
    }
  }

  /** The loop over the user's languages; comparing with a missing language would crash. */
  method LanguageMatches(env: Env, lang: Option<string>) returns (found: bool)
    requires env.langs == [] || lang.Some?
    ensures found <==> lang.Some? && lang.value in env.langs
  {
    var i := 0;
    while i < |env.langs|
      invariant 0 <= i <= |env.langs| && (lang.Some? ==> lang.value !in env.langs[..i])
    {
      if env.langs[i] == lang.value {
        return true;
      }
      i := i + 1;
    }
    return false;
  }

  /** The branches that only set a property. */
  function Applied(item: Item, tag: Tag, text: Option<string>): Item
    requires (tag == Options || tag == ShadeType) ==> text.Some?
  {
    match tag
    case Options => SetPlacement(item, EnumValue(STYLES, text.value))
    case ShadeType => SetShading(item, EnumValue(SHADINGS, text.value))
    case PcolorTag => SetPcolor(item, text)
    case ScolorTag => SetScolor(item, text)
    case SourceUrlTag => item.(sourceUrl := text, needsDownload := false)
    case Filename => item
    case FilenameDark => item
    case NameTag => item
    case OtherTag(_) => item
  }

  /** cc_background_xml_save: the children of the wallpaper element, in the order they are added */
  method Save(env: Env, item: Item) returns (nodes: seq<Node>)
    requires item.placement < |STYLES| && item.shading < |SHADINGS|
    ensures nodes == Saved(env, item)
  {
    nodes := [TextChild(NameTag, item.name)];
    if item.flags.hasUri && item.uri.Some? {
      nodes := nodes + [TextChild(Filename, env.pathOf(item.uri.value))];
    } else if item.flags.hasUri {
      nodes := nodes + [TextChild(Filename, Some(NONE))];
    }
    assert nodes == NameNodes(item) + FileNodes(env, item);
    nodes := SaveEnums(nodes, item);
    nodes := SaveTexts(nodes, item);
  }

  method SaveEnums(before: seq<Node>, item: Item) returns (nodes: seq<Node>)
    requires item.placement < |STYLES| && item.shading < |SHADINGS|
    ensures nodes == before + PlacementNodes(item) + ShadingNodes(item)
  {
    nodes := before;
    if item.flags.hasPlacement {
      nodes := nodes + [TextChild(Options, Some(STYLES[item.placement]))];
    }
    assert nodes == before + PlacementNodes(item);
    if item.flags.hasShading {
      nodes := nodes + [TextChild(ShadeType, Some(SHADINGS[item.shading]))];
    }
  }

  method SaveTexts(before: seq<Node>, item: Item) returns (nodes: seq<Node>)
    ensures nodes == before + ColorNodes(item) + SourceNodes(item)
  {
    nodes := before;
    if item.flags.hasPcolor {
      nodes := nodes + [TextChild(PcolorTag, item.pcolor)];
    }
    assert nodes == before + If(item.flags.hasPcolor, TextChild(PcolorTag, item.pcolor));
    if item.flags.hasScolor {
      nodes := nodes + [TextChild(ScolorTag, item.scolor)];
    }
    assert nodes == before + ColorNodes(item);
    if item.sourceUrl.Some? {
      nodes := nodes + [TextChild(SourceUrlTag, item.sourceUrl)];
    }
  }

  class BackgroundXml {
    var wpHash: map<string, Item>
    var added: seq<Item>            // the items signalled so far

    ghost function K(): Known reads this { Known(wpHash.Keys, added) }

    constructor ()
      ensures K() == Known({}, [])
    {
      wpHash, added := map[], [];
    }

    /** cc_background_xml_load_xml_internal, for a file that parses; crashes are excluded. */
    method LoadXmlInternal(env: Env, doc: seq<Entry>) returns (retval: bool)
      requires Load(env, K(), doc).Some?
      modifies this
      ensures Some(K()) == old(Load(env, K(), doc))
      ensures retval <==> added != old(added)
    {
      ghost var whole := Load(env, K(), doc);
      retval := false;
      var i := 0;
      assert doc[0..] == doc;
      while i < |doc|
        invariant 0 <= i <= |doc|
        invariant Load(env, K(), doc[i..]) == whole
        invariant old(added) <= added && (retval <==> |added| > |old(added)|)
      {
        assert doc[i..][0] == doc[i] && doc[i..][1..] == doc[i + 1..];
        assert LoadEntry(env, K(), doc[i]).Some?;
        if doc[i].Wallpaper? {
          var more := AddWallpaper(env, doc[i].deleted, doc[i].nodes);
          retval := retval || more;
        }
        i := i + 1;
      }
      assert doc[i..] == [];
    }

    /** One wallpaper element: skipped if its picture is missing or its identifier is known. */
    method AddWallpaper(env: Env, deleted: bool, nodes: seq<Node>) returns (isNew: bool)
      requires LoadEntry(env, K(), Wallpaper(deleted, nodes)).Some?
      modifies this
      ensures Some(K()) == old(LoadEntry(env, K(), Wallpaper(deleted, nodes)))
      ensures old(added) <= added && (isNew <==> |added| > |old(added)|)
    {
      var a := LoadWallpaper(env, deleted, nodes);
      if a.item.uri.Some? && !env.fileExists(a.item.uri.value) {
        return false;
      }
      var id := IdOf(env, a);
      if id in wpHash {
        return false;
      }
      wpHash := wpHash[id := a.item];
      assert wpHash.Keys == old(wpHash.Keys) + {id};
      added := added + [a.item];
      isNew := true;
    }
  }
}
