/** A background item and the setters that load, save and the panel use.  Enumeration values are the
    ones of the GDesktopBackgroundStyle and GDesktopBackgroundShading enumerations, which are not part
    of this repository; an index into a table of nicks stands for a value. */
module BackgroundItem {
  import opened Text

  datatype Flags = Flags(hasUri: bool, hasUriDark: bool, hasPlacement: bool, hasShading: bool,
                         hasPcolor: bool, hasScolor: bool)

  datatype Item = Item(
    name: Option<string>, uri: Option<string>, uriDark: Option<string>,
    placement: nat, shading: nat,
    pcolor: Option<string>, scolor: Option<string>,
    sourceUrl: Option<string>, sourceXml: Option<string>,
    isDeleted: bool, needsDownload: bool, flags: Flags)

  const STYLES: seq<string> := ["none", "wallpaper", "centered", "scaled", "stretched", "zoom", "spanned"]
  const SHADINGS: seq<string> := ["solid", "vertical", "horizontal"]

  const STYLE_NONE: nat := 0
  const SCALED: nat := 3
  const SOLID: nat := 0
  const VERTICAL: nat := 1
  const HORIZONTAL: nat := 2
  const BLACK: string := "#000000000000"

  const NO_FLAGS: Flags := Flags(false, false, false, false, false, false)

  /** cc_background_item_init */
  const BLANK: Item := Item(None, None, None, SCALED, SOLID, Some(BLACK), Some(BLACK), None, None, false, true, NO_FLAGS)

  function NonEmpty(value: Option<string>): Option<string> { if value == Some("") then None else value }

  function SetUri(i: Item, value: Option<string>): Item {
    i.(uri := NonEmpty(value), flags := i.flags.(hasUri := true))
  }

  function SetUriDark(i: Item, value: Option<string>): Item {
    i.(uriDark := NonEmpty(value), flags := i.flags.(hasUriDark := true))
  }

  function SetPlacement(i: Item, value: nat): Item {
    i.(placement := value, flags := i.flags.(hasPlacement := true))
  }

  function SetShading(i: Item, value: nat): Item {
    i.(shading := value, flags := i.flags.(hasShading := true))
  }

  function SetPcolor(i: Item, value: Option<string>): Item {
    i.(pcolor := value, flags := i.flags.(hasPcolor := true))
  }

  function SetScolor(i: Item, value: Option<string>): Item {
    i.(scolor := value, flags := i.flags.(hasScolor := true))
  }

  /** cc_background_item_new: the constructor passes the uri through its setter. */
  function New(uri: Option<string>): Item { SetUri(BLANK, uri) }

  /** A property that was never set has its initial value, and every item has a flagged uri. */
  predicate Faithful(i: Item) {
    && i.flags.hasUri && i.uri != Some("")
    && (!i.flags.hasUriDark ==> i.uriDark == None)
    && (!i.flags.hasPlacement ==> i.placement == SCALED)
    && (!i.flags.hasShading ==> i.shading == SOLID)
    && (!i.flags.hasPcolor ==> i.pcolor == Some(BLACK))
    && (!i.flags.hasScolor ==> i.scolor == Some(BLACK))
  }

  datatype Setter =
    | Name(text: Option<string>) | Uri(text: Option<string>) | UriDark(text: Option<string>)
    | Placement(value: nat) | Shading(value: nat)
    | Pcolor(text: Option<string>) | Scolor(text: Option<string>)
    | SourceUrl(text: Option<string>) | Downloaded

  function Set(i: Item, s: Setter): Item {
    match s
    case Name(t) => i.(name := t)
    case Uri(t) => SetUri(i, t)
    case UriDark(t) => SetUriDark(i, t)
    case Placement(v) => SetPlacement(i, v)
    case Shading(v) => SetShading(i, v)
    case Pcolor(t) => SetPcolor(i, t)
    case Scolor(t) => SetScolor(i, t)
    case SourceUrl(t) => i.(sourceUrl := t)
    case Downloaded => i.(needsDownload := false)
  }

  function SetAll(i: Item, setters: seq<Setter>): Item
    decreases |setters|
  {
    if setters == [] then i else SetAll(Set(i, setters[0]), setters[1..])
  }

  lemma SetterKeepsFaithful(i: Item, s: Setter)
    requires Faithful(i)
    ensures Faithful(Set(i, s))
  {
  }

  /** What each setter changes: its property, with an empty location stored as none, and its flag. */
  lemma SetterOutcome(i: Item, s: Setter)
    ensures var r := Set(i, s);
      && (s.Name? ==> r == i.(name := s.text))
      && (s.Uri? ==> r == i.(uri := if s.text == Some("") then None else s.text, flags := i.flags.(hasUri := true)))
      && (s.UriDark? ==>
            r == i.(uriDark := if s.text == Some("") then None else s.text, flags := i.flags.(hasUriDark := true)))
      && (s.Placement? ==> r == i.(placement := s.value, flags := i.flags.(hasPlacement := true)))
      && (s.Shading? ==> r == i.(shading := s.value, flags := i.flags.(hasShading := true)))
      && (s.Pcolor? ==> r == i.(pcolor := s.text, flags := i.flags.(hasPcolor := true)))
      && (s.Scolor? ==> r == i.(scolor := s.text, flags := i.flags.(hasScolor := true)))
      && (s.SourceUrl? ==> r == i.(sourceUrl := s.text))
      && (s.Downloaded? ==> r == i.(needsDownload := false))
  {
  }

  /** Every item that is made and changed through its properties stays faithful. */
  lemma {:induction false} SettersKeepFaithful(i: Item, setters: seq<Setter>)
    requires Faithful(i)
    ensures Faithful(SetAll(i, setters))
    decreases |setters|
  {
    if setters != [] {
      SetterKeepsFaithful(i, setters[0]);
      SettersKeepFaithful(Set(i, setters[0]), setters[1..]);
    }
  }

  lemma NewIsFaithful(uri: Option<string>)
    ensures Faithful(New(uri))
  {
  }
}
