/** Choosing a background: what the panel writes to the settings, how it cleans up values that equal the
    defaults, and what it reads back.  The settings object is in delayed mode: changes are pending until
    they are applied, and reading sees them. */
module BackgroundSettings {
  import opened Text
  import opened BackgroundItem

  datatype Key = UriKey | UriDarkKey | OptionsKey | ShadingKey | PcolorKey | ScolorKey

  /** The order in which the defaults are checked; the uri needs to be first. */
  const KEYS: seq<Key> := [UriKey, UriDarkKey, OptionsKey, ShadingKey, PcolorKey, ScolorKey]

  datatype Value = Text(text: string) | Enum(number: nat)

  /** The default of every key, from the schema. */
  datatype Defaults = Defaults(uri: Value, uriDark: Value, options: Value, shading: Value, pcolor: Value, scolor: Value)

  function DefaultOf(d: Defaults, k: Key): Value {
    match k
    case UriKey => d.uri
    case UriDarkKey => d.uriDark
    case OptionsKey => d.options
    case ShadingKey => d.shading
    case PcolorKey => d.pcolor
    case ScolorKey => d.scolor
  }

  /** The user's values, and the changes not yet applied (None: back to the default). */
  datatype Settings = Settings(stored: map<Key, Value>, pending: map<Key, Option<Value>>)

  /** g_settings_get_value */
  function Effective(d: Defaults, s: Settings, k: Key): Value {
    if k in s.pending then (if s.pending[k].Some? then s.pending[k].value else DefaultOf(d, k))
    else if k in s.stored then s.stored[k]
    else DefaultOf(d, k)
  }

  function TextOf(v: Value): string { if v.Text? then v.text else "" }

  function NumberOf(v: Value): nat { if v.Enum? then v.number else 0 }

  function EnumAt(d: Defaults, s: Settings, k: Key): nat { NumberOf(Effective(d, s, k)) }

  function Write(s: Settings, k: Key, v: Value): Settings { s.(pending := s.pending[k := Some(v)]) }

  /** g_settings_set_string; NULL is refused and changes nothing. */
  function WriteText(s: Settings, k: Key, v: Option<string>): Settings {
    if v.Some? then Write(s, k, Text(v.value)) else s
  }

  function Reset(s: Settings, k: Key): Settings { s.(pending := s.pending[k := None]) }

  predicate Kept(s: Settings, k: Key) {
    if k in s.pending then s.pending[k].Some? else k in s.stored
  }

  /** g_settings_apply */
  function Apply(s: Settings): Settings {
    Settings(map k | k in s.stored.Keys + s.pending.Keys && Kept(s, k) ::
               if k in s.pending then s.pending[k].value else s.stored[k],
             map[])
  }

  lemma ApplyKeepsValues(d: Defaults, s: Settings)
    ensures forall k :: Effective(d, Apply(s), k) == Effective(d, s, k)
    ensures forall k :: k in Apply(s).stored <==> Kept(s, k)
  {
  }

  // ---- writing an item ----

  function WriteUris(s: Settings, i: Item, setDark: bool): Settings {
    var s1 := WriteText(s, UriKey, i.uri);
    if !setDark then s1
    else WriteText(s1, UriDarkKey, if NonEmpty(i.uriDark).Some? then i.uriDark else i.uri)
  }

  function WriteEnums(d: Defaults, s: Settings, i: Item): Settings {
    var s1 := if i.flags.hasPlacement then Write(s, OptionsKey, Enum(i.placement))
              else if i.uri.Some? && EnumAt(d, s, OptionsKey) == STYLE_NONE then Write(s, OptionsKey, Enum(i.placement))
              else s;
    if i.flags.hasShading then Write(s1, ShadingKey, Enum(i.shading)) else s1
  }

  function WriteColors(s: Settings, i: Item): Settings {
    WriteText(WriteText(s, PcolorKey, i.pcolor), ScolorKey, i.scolor)
  }

  function WriteItem(d: Defaults, s: Settings, i: Item, setDark: bool): Settings {
    WriteColors(WriteEnums(d, WriteUris(s, i, setDark), i), i)
  }

  // ---- back to the defaults ----

  predicate Skipped(k: Key, checkDark: bool) { !checkDark && k == UriDarkKey }

  function ResetDefaults(d: Defaults, s: Settings, keys: seq<Key>, checkDark: bool): Settings
    decreases |keys|
  {
    if keys == [] then s
    else
      var k := keys[0];
      ResetDefaults(d, if !Skipped(k, checkDark) && Effective(d, s, k) == DefaultOf(d, k) then Reset(s, k) else s,
                    keys[1..], checkDark)
  }

  /** reset_settings_if_defaults */
  function ResetIfDefaults(d: Defaults, s: Settings, checkDark: bool): Settings {
    if Effective(d, s, UriKey) != DefaultOf(d, UriKey) then s
    else Apply(ResetDefaults(d, s, KEYS, checkDark))
  }

  /** set_background */
  function SetBackground(d: Defaults, s: Settings, i: Option<Item>, setDark: bool): Settings {
    if i == None then s else ResetIfDefaults(d, Apply(WriteItem(d, s, i.value, setDark)), setDark)
  }

  lemma {:induction false} ResetDefaultsKeepsValues(d: Defaults, s: Settings, keys: seq<Key>, checkDark: bool)
    ensures var r := ResetDefaults(d, s, keys, checkDark);
      && r.stored == s.stored
      && (forall k :: Effective(d, r, k) == Effective(d, s, k))
      && (forall k :: Kept(r, k) <==>
            Kept(s, k) && !(k in keys && !Skipped(k, checkDark) && Effective(d, s, k) == DefaultOf(d, k)))
    decreases |keys|
  {
    if keys != [] {
      var k := keys[0];
      var s1 := if !Skipped(k, checkDark) && Effective(d, s, k) == DefaultOf(d, k) then Reset(s, k) else s;
      ResetDefaultsKeepsValues(d, s1, keys[1..], checkDark);
      assert forall x :: x in keys <==> x == k || x in keys[1..];
    }
  }

  lemma EveryKeyListed(k: Key)
    ensures k in KEYS
  {
    assert KEYS[0] == UriKey && KEYS[1] == UriDarkKey && KEYS[2] == OptionsKey && KEYS[3] == ShadingKey
        && KEYS[4] == PcolorKey && KEYS[5] == ScolorKey;
  }

  /** The clean-up changes no value, and removes exactly the user's values that equal their defaults, and
      only when the picture itself is the default one (the dark picture only if it was asked for). */
  lemma ResetChangesNoValue(d: Defaults, s: Settings, checkDark: bool, k: Key)
    requires s.pending == map[]
    ensures var r := ResetIfDefaults(d, s, checkDark);
      && r.pending == map[]
      && Effective(d, r, k) == Effective(d, s, k)
      && (k in r.stored <==>
            k in s.stored && !(Effective(d, s, UriKey) == DefaultOf(d, UriKey) && (checkDark || k != UriDarkKey)
                               && Effective(d, s, k) == DefaultOf(d, k)))
  {
    ResetDefaultsKeepsValues(d, s, KEYS, checkDark);
    ApplyKeepsValues(d, ResetDefaults(d, s, KEYS, checkDark));
    EveryKeyListed(k);
  }

  // ---- what a choice leaves in the settings ----

  function OrOld(text: Option<string>, was: Value): Value { if text.Some? then Text(text.value) else was }

  /** The value of each key after item i was chosen. */
  function Chosen(d: Defaults, s: Settings, i: Item, setDark: bool, k: Key): Value {
    var was := Effective(d, s, k);
    match k
    case UriKey => OrOld(i.uri, was)
    case UriDarkKey => if !setDark then was else OrOld(if NonEmpty(i.uriDark).Some? then i.uriDark else i.uri, was)
    case OptionsKey =>
      if i.flags.hasPlacement || (i.uri.Some? && EnumAt(d, s, OptionsKey) == STYLE_NONE) then Enum(i.placement) else was
    case ShadingKey => if i.flags.hasShading then Enum(i.shading) else was
    case PcolorKey => OrOld(i.pcolor, was)
    case ScolorKey => OrOld(i.scolor, was)
  }

  lemma UriValues(d: Defaults, s: Settings, i: Item, setDark: bool, k: Key)
    ensures Effective(d, WriteUris(s, i, setDark), k) ==
            if k == UriKey || k == UriDarkKey then Chosen(d, s, i, setDark, k) else Effective(d, s, k)
  {
  }

  lemma EnumValues(d: Defaults, s: Settings, i: Item, setDark: bool, k: Key)
    ensures Effective(d, WriteEnums(d, s, i), k) ==
            if k == OptionsKey || k == ShadingKey then Chosen(d, s, i, setDark, k) else Effective(d, s, k)
  {
  }

  lemma ColorValues(d: Defaults, s: Settings, i: Item, setDark: bool, k: Key)
    ensures Effective(d, WriteColors(s, i), k) ==
            if k == PcolorKey || k == ScolorKey then Chosen(d, s, i, setDark, k) else Effective(d, s, k)
  {
  }

  lemma ChosenSame(d: Defaults, s: Settings, t: Settings, i: Item, setDark: bool, k: Key)
    requires Effective(d, s, k) == Effective(d, t, k) && Effective(d, s, OptionsKey) == Effective(d, t, OptionsKey)
    ensures Chosen(d, s, i, setDark, k) == Chosen(d, t, i, setDark, k)
  {
  }

  lemma WriteItemValues(d: Defaults, s: Settings, i: Item, setDark: bool, k: Key)
    ensures Effective(d, WriteItem(d, s, i, setDark), k) == Chosen(d, s, i, setDark, k)
  {
    var s1 := WriteUris(s, i, setDark);
    var s2 := WriteEnums(d, s1, i);
    UriValues(d, s, i, setDark, k);
    UriValues(d, s, i, setDark, OptionsKey);
    EnumValues(d, s1, i, setDark, k);
    ColorValues(d, s2, i, setDark, k);
    if k == OptionsKey || k == ShadingKey {
      ChosenSame(d, s, s1, i, setDark, k);
    } else if k == PcolorKey || k == ScolorKey {
      assert Chosen(d, s2, i, setDark, k) == Chosen(d, s, i, setDark, k);
    }
  }

  /** Choosing an item gives every key exactly its chosen value, with nothing left to apply. */
  lemma ChoiceIsStored(d: Defaults, s: Settings, i: Item, setDark: bool, k: Key)
    ensures var r := SetBackground(d, s, Some(i), setDark);
      r.pending == map[] && Effective(d, r, k) == Chosen(d, s, i, setDark, k)
  {
    var s1 := WriteItem(d, s, i, setDark);
    WriteItemValues(d, s, i, setDark, k);
    ApplyKeepsValues(d, s1);
    ResetChangesNoValue(d, Apply(s1), setDark, k);
  }

  /** Settings r say what item i says: a text that the item has replaces the old one, a missing one does not;
      the dark picture is the item's or else its picture, and only where it is asked for; a style is written if
      it is flagged, and the placement also if there is a picture and there was none. */
  predicate Written(d: Defaults, s: Settings, i: Item, setDark: bool, r: Settings) {
    && Effective(d, r, UriKey) == (if i.uri.Some? then Text(i.uri.value) else Effective(d, s, UriKey))
    && Effective(d, r, UriDarkKey) ==
       (if setDark && i.uriDark.Some? && i.uriDark.value != "" then Text(i.uriDark.value)
        else if setDark && i.uri.Some? then Text(i.uri.value) else Effective(d, s, UriDarkKey))
    && Effective(d, r, OptionsKey) ==
       (if i.flags.hasPlacement || (i.uri.Some? && NumberOf(Effective(d, s, OptionsKey)) == 0) then Enum(i.placement)
        else Effective(d, s, OptionsKey))
    && Effective(d, r, ShadingKey) == (if i.flags.hasShading then Enum(i.shading) else Effective(d, s, ShadingKey))
    && Effective(d, r, PcolorKey) == (if i.pcolor.Some? then Text(i.pcolor.value) else Effective(d, s, PcolorKey))
    && Effective(d, r, ScolorKey) == (if i.scolor.Some? then Text(i.scolor.value) else Effective(d, s, ScolorKey))
  }

  lemma ChosenIsWritten(d: Defaults, s: Settings, i: Item, setDark: bool, r: Settings)
    requires forall k :: Effective(d, r, k) == Chosen(d, s, i, setDark, k)
    ensures Written(d, s, i, setDark, r)
  {
  }

  /** What a choice leaves under each key. */
  lemma ChoiceValues(d: Defaults, s: Settings, i: Item, setDark: bool)
    ensures Written(d, s, i, setDark, SetBackground(d, s, Some(i), setDark))
  {
    var r := SetBackground(d, s, Some(i), setDark);
    forall k ensures Effective(d, r, k) == Chosen(d, s, i, setDark, k) {
      ChoiceIsStored(d, s, i, setDark, k);
    }
    ChosenIsWritten(d, s, i, setDark, r);
  }

  lemma ChoosingNothing(d: Defaults, s: Settings, setDark: bool)
    ensures SetBackground(d, s, None, setDark) == s
  {
  }

  /** Choosing the same item again changes no value. */
  lemma ChoosingAgainChangesNothing(d: Defaults, s: Settings, i: Item, setDark: bool, k: Key)
    ensures var r := SetBackground(d, s, Some(i), setDark);
      Effective(d, SetBackground(d, r, Some(i), setDark), k) == Effective(d, r, k)
  {
    var r := SetBackground(d, s, Some(i), setDark);
    ChoiceIsStored(d, s, i, setDark, k);
    ChoiceIsStored(d, s, i, setDark, OptionsKey);
    ChoiceIsStored(d, r, i, setDark, k);
  }

  // ---- reading it back ----

  /** The item that reload_current_bg builds from the six values. */
  function FromValues(uri: Value, uriDark: Value, options: Value, shading: Value, pcolor: Value, scolor: Value): Item {
    var i := New(NonEmpty(Some(TextOf(uri)))).(name := Some("Current background"));
    SetScolor(SetPcolor(SetShading(SetPlacement(SetUriDark(i,
      Some(TextOf(uriDark))), NumberOf(options)), NumberOf(shading)), Some(TextOf(pcolor))), Some(TextOf(scolor)))
  }

  /** reload_current_bg */
  function Reload(d: Defaults, s: Settings): Item {
    FromValues(Effective(d, s, UriKey), Effective(d, s, UriDarkKey), Effective(d, s, OptionsKey),
               Effective(d, s, ShadingKey), Effective(d, s, PcolorKey), Effective(d, s, ScolorKey))
  }

  /** When two locations name one file, and two colour texts one colour. */
  datatype Sameness = Sameness(file: (string, string) -> bool, color: (string, string) -> bool)

  function FilesEqual(e: Sameness, a: Option<string>, b: Option<string>): bool {
    if a == None || b == None then a == b else e.file(a.value, b.value)
  }

  function ColorsEqual(e: Sameness, a: Option<string>, b: Option<string>): bool {
    a.Some? && b.Some? && e.color(a.value, b.value)
  }

  /** cc_background_item_compare: only what the saved item's flags name is compared. */
  predicate Compare(e: Sameness, saved: Item, configured: Item) {
    var f := saved.flags;
    && f != NO_FLAGS
    && (f.hasUri ==> FilesEqual(e, saved.uri, configured.uri))
    && (f.hasUriDark ==> FilesEqual(e, saved.uriDark, configured.uriDark))
    && (f.hasShading ==> saved.shading == configured.shading)
    && (f.hasPlacement ==> saved.placement == configured.placement)
    && (f.hasPcolor ==> ColorsEqual(e, saved.pcolor, configured.pcolor))
    && (f.hasScolor ==> ColorsEqual(e, saved.scolor, configured.scolor))
  }

  ghost predicate Reflexive(e: Sameness) {
    (forall x :: e.file(x, x)) && (forall x :: e.color(x, x))
  }

  /** A flagged property of the saved item that the configured one does not have tells them apart, whatever
      else they have in common. */
  lemma FlaggedDifferenceTells(e: Sameness, saved: Item, c: Item)
    ensures saved.flags.hasUri && saved.uri.Some? && c.uri.Some? && !e.file(saved.uri.value, c.uri.value)
            ==> !Compare(e, saved, c)
    ensures saved.flags.hasUri && saved.uri.Some? != c.uri.Some? ==> !Compare(e, saved, c)
    ensures (saved.flags.hasUriDark && saved.uriDark.Some? && c.uriDark.Some?
             && !e.file(saved.uriDark.value, c.uriDark.value)) ==> !Compare(e, saved, c)
    ensures saved.flags.hasUriDark && saved.uriDark.Some? != c.uriDark.Some? ==> !Compare(e, saved, c)
    ensures saved.flags.hasPlacement && saved.placement != c.placement ==> !Compare(e, saved, c)
    ensures saved.flags.hasShading && saved.shading != c.shading ==> !Compare(e, saved, c)
    ensures (saved.flags.hasPcolor && saved.pcolor.Some? && c.pcolor.Some?
             && !e.color(saved.pcolor.value, c.pcolor.value)) ==> !Compare(e, saved, c)
    ensures (saved.flags.hasScolor && saved.scolor.Some? && c.scolor.Some?
             && !e.color(saved.scolor.value, c.scolor.value)) ==> !Compare(e, saved, c)
    ensures saved.flags == Flags(false, false, false, false, false, false) ==> !Compare(e, saved, c)
  {
  }

  /** Properties that are not flagged, and the others, do not matter. */
  lemma UnflaggedDoesNotMatter(e: Sameness, saved: Item, c: Item, other: Item)
    requires saved.flags.hasUri ==> other.uri == c.uri
    requires saved.flags.hasUriDark ==> other.uriDark == c.uriDark
    requires saved.flags.hasPlacement ==> other.placement == c.placement
    requires saved.flags.hasShading ==> other.shading == c.shading
    requires saved.flags.hasPcolor ==> other.pcolor == c.pcolor
    requires saved.flags.hasScolor ==> other.scolor == c.scolor
    ensures Compare(e, saved, c) <==> Compare(e, saved, other)
  {
  }

  /** Items that agree on all that is flagged, if anything is, compare equal; a flagged colour must be there. */
  lemma AgreementSuffices(e: Sameness, saved: Item, c: Item)
    requires Reflexive(e) && saved.flags != Flags(false, false, false, false, false, false)
    requires saved.flags.hasUri ==> saved.uri == c.uri
    requires saved.flags.hasUriDark ==> saved.uriDark == c.uriDark
    requires saved.flags.hasPlacement ==> saved.placement == c.placement
    requires saved.flags.hasShading ==> saved.shading == c.shading
    requires saved.flags.hasPcolor ==> saved.pcolor == c.pcolor && c.pcolor.Some?
    requires saved.flags.hasScolor ==> saved.scolor == c.scolor && c.scolor.Some?
    ensures Compare(e, saved, c)
  {
  }

  /** files_equal */
  method CompareFiles(e: Sameness, a: Option<string>, b: Option<string>) returns (same: bool)
    ensures same <==> FilesEqual(e, a, b)
    ensures a == None && b == None ==> same
    ensures a.Some? != b.Some? ==> !same
    ensures a.Some? && b.Some? ==> (same <==> e.file(a.value, b.value))
  {
    if a == None && b == None {
      return true;
    }
    if a == None || b == None {
      return false;
    }
    same := e.file(a.value, b.value);
  }

  /** cc_background_item_compare */
  method CompareItems(e: Sameness, saved: Item, configured: Item) returns (same: bool)
    ensures same <==> Compare(e, saved, configured)
  {
    var flags := saved.flags;
    if flags == NO_FLAGS {
      return false;
    }
    if flags.hasUri {
      var equal := CompareFiles(e, saved.uri, configured.uri);
      if !equal {
        return false;
      }
    }
    if flags.hasUriDark {
      var equal := CompareFiles(e, saved.uriDark, configured.uriDark);
      if !equal {
        return false;
      }
    }
    if flags.hasShading {
      if saved.shading != configured.shading {
        return false;
      }
    }
    if flags.hasPlacement {
      if saved.placement != configured.placement {
        return false;
      }
    }
    if flags.hasPcolor {
      if !ColorsEqual(e, saved.pcolor, configured.pcolor) {
        return false;
      }
    }
    if flags.hasScolor {
      if !ColorsEqual(e, saved.scolor, configured.scolor) {
        return false;
      }
    }
    return true;
  }

  /** An item as its setters leave it, with both colours. */
  predicate Choosable(i: Item) {
    Faithful(i) && i.uriDark != Some("") && i.pcolor.Some? && i.scolor.Some?
  }

  /** A colour is set to a text, never to NULL, as every source of items does. */
  predicate GivesColor(s: Setter) { s.Pcolor? || s.Scolor? ==> s.text.Some? }

  lemma SetterKeepsChoosable(i: Item, s: Setter)
    requires Choosable(i) && GivesColor(s)
    ensures Choosable(Set(i, s))
  {
    SetterKeepsFaithful(i, s);
  }

  /** Every item that is made and changed through its properties can be chosen. */
  lemma {:induction false} SettersKeepChoosable(i: Item, setters: seq<Setter>)
    requires Choosable(i) && forall k :: 0 <= k < |setters| ==> GivesColor(setters[k])
    ensures Choosable(SetAll(i, setters))
    decreases |setters|
  {
    if setters != [] {
      SetterKeepsChoosable(i, setters[0]);
      SettersKeepChoosable(Set(i, setters[0]), setters[1..]);
    }
  }

  lemma ReloadReads(d: Defaults, s: Settings)
    ensures var c := Reload(d, s);
      && c.uri == NonEmpty(Some(TextOf(Effective(d, s, UriKey))))
      && c.uriDark == NonEmpty(Some(TextOf(Effective(d, s, UriDarkKey))))
      && c.name == Some("Current background") && c.flags == Flags(true, true, true, true, true, true)
      && c.placement == EnumAt(d, s, OptionsKey) && c.shading == EnumAt(d, s, ShadingKey)
      && c.pcolor == Some(TextOf(Effective(d, s, PcolorKey))) && c.scolor == Some(TextOf(Effective(d, s, ScolorKey)))
  {
  }

  /** The location read back where text was chosen: an empty one counts as none. */
  lemma LocationReads(text: Option<string>, was: Value)
    requires text != Some("")
    ensures NonEmpty(Some(TextOf(OrOld(text, was)))) == if text.Some? then text else NonEmpty(Some(TextOf(was)))
  {
  }

  lemma ChosenLocations(d: Defaults, s: Settings, i: Item)
    requires Choosable(i)
    ensures NonEmpty(Some(TextOf(Chosen(d, s, i, true, UriKey)))) ==
            if i.uri.Some? then i.uri else NonEmpty(Some(TextOf(Effective(d, s, UriKey))))
    ensures NonEmpty(Some(TextOf(Chosen(d, s, i, true, UriDarkKey)))) ==
            if i.uriDark.Some? then i.uriDark else if i.uri.Some? then i.uri
            else NonEmpty(Some(TextOf(Effective(d, s, UriDarkKey))))
  {
    LocationReads(i.uri, Effective(d, s, UriKey));
    LocationReads(if i.uriDark.Some? then i.uriDark else i.uri, Effective(d, s, UriDarkKey));
  }

  lemma ChosenStyle(d: Defaults, s: Settings, i: Item)
    requires Choosable(i)
    ensures i.flags.hasPlacement ==> NumberOf(Chosen(d, s, i, true, OptionsKey)) == i.placement
    ensures i.flags.hasShading ==> NumberOf(Chosen(d, s, i, true, ShadingKey)) == i.shading
    ensures Some(TextOf(Chosen(d, s, i, true, PcolorKey))) == i.pcolor
    ensures Some(TextOf(Chosen(d, s, i, true, ScolorKey))) == i.scolor
  {
  }

  /** Item c says what item i says, but a location that i lacks is the one set before, except that a picture
      stands in for a dark one. */
  predicate ReadsBack(d: Defaults, s: Settings, i: Item, c: Item) {
    && c.uri == (if i.uri.Some? then i.uri else NonEmpty(Some(TextOf(Effective(d, s, UriKey)))))
    && c.uriDark == (if i.uriDark.Some? then i.uriDark
                     else if i.uri.Some? then i.uri
                     else NonEmpty(Some(TextOf(Effective(d, s, UriDarkKey)))))
    && (i.flags.hasPlacement ==> c.placement == i.placement)
    && (i.flags.hasShading ==> c.shading == i.shading)
    && c.pcolor == i.pcolor && c.scolor == i.scolor
  }

  lemma StoredReadsBack(d: Defaults, s: Settings, i: Item, r: Settings)
    requires Choosable(i) && forall k :: Effective(d, r, k) == Chosen(d, s, i, true, k)
    ensures ReadsBack(d, s, i, Reload(d, r))
  {
    ReloadReads(d, r);
    ChosenLocations(d, s, i);
    ChosenStyle(d, s, i);
  }

  /** What the panel reads back after item i was chosen. */
  lemma ChosenReadsBack(d: Defaults, s: Settings, i: Item)
    requires Choosable(i)
    ensures ReadsBack(d, s, i, Reload(d, SetBackground(d, s, Some(i), true)))
  {
    var r := SetBackground(d, s, Some(i), true);
    forall k ensures Effective(d, r, k) == Chosen(d, s, i, true, k) {
      ChoiceIsStored(d, s, i, true, k);
    }
    StoredReadsBack(d, s, i, r);
  }

  /** The settings will be able to say what item i says.  No text is ever written for a location that is
      missing, so the old one must be empty; and a missing dark picture is replaced by any picture. */
  predicate Expressible(d: Defaults, s: Settings, i: Item) {
    && (i.uri == None ==> TextOf(Effective(d, s, UriKey)) == "")
    && (i.flags.hasUriDark && i.uriDark == None ==> i.uri == None && TextOf(Effective(d, s, UriDarkKey)) == "")
  }

  /** An item compares equal to what was read back exactly when the settings could express it. */
  lemma CompareIff(d: Defaults, s: Settings, e: Sameness, i: Item, c: Item)
    requires Choosable(i) && Reflexive(e) && ReadsBack(d, s, i, c)
    ensures Compare(e, i, c) <==> Expressible(d, s, i)
  {
  }

  /** Choosing an item and reading the settings back gives an item that the chosen one compares equal to,
      exactly when the settings can express it. */
  lemma ChosenIsCurrentIff(d: Defaults, s: Settings, e: Sameness, i: Item)
    requires Choosable(i) && Reflexive(e)
    ensures Compare(e, i, Reload(d, SetBackground(d, s, Some(i), true))) <==> Expressible(d, s, i)
  {
    ChosenReadsBack(d, s, i);
    CompareIff(d, s, e, i, Reload(d, SetBackground(d, s, Some(i), true)));
  }

  /** An item that its setters can make, and that is not current after it was chosen: its file gives
      "(none)" as its dark picture. */
  lemma DarkFlagWitness(d: Defaults, s: Settings, e: Sameness, uri: string)
    requires Reflexive(e) && uri != ""
    ensures var i := SetUriDark(New(Some(uri)), None);
      Choosable(i) && !Compare(e, i, Reload(d, SetBackground(d, s, Some(i), true)))
  {
    ChosenIsCurrentIff(d, s, e, SetUriDark(New(Some(uri)), None));
  }

  /** Another one, which flags no dark picture: its file gives "(none)" as its picture, and a picture was set
      before. */
  lemma NoPictureWitness(d: Defaults, s: Settings, e: Sameness, name: string)
    requires Reflexive(e) && TextOf(Effective(d, s, UriKey)) != ""
    ensures var i := New(None).(name := Some(name));
      Choosable(i) && !i.flags.hasUriDark && !Compare(e, i, Reload(d, SetBackground(d, s, Some(i), true)))
  {
    ChosenIsCurrentIff(d, s, e, New(None).(name := Some(name)));
  }

  // ---- the panel as written ----

  class Store {
    const defaults: Defaults
    var stored: map<Key, Value>
    var pending: map<Key, Option<Value>>

    ghost function S(): Settings reads this { Settings(stored, pending) }

    constructor (defaults: Defaults)
      ensures this.defaults == defaults && S() == Settings(map[], map[])
    {
      this.defaults := defaults;
      stored, pending := map[], map[];
    }

    function Get(k: Key): (v: Value)
      reads this
      ensures v == Effective(defaults, S(), k)
    {
      if k in pending then (if pending[k].Some? then pending[k].value else DefaultOf(defaults, k))
      else if k in stored then stored[k]
      else DefaultOf(defaults, k)
    }

    method SetText(k: Key, v: Option<string>)
      modifies `pending
      ensures S() == old(WriteText(S(), k, v))
    {
      if v.Some? {
        pending := pending[k := Some(Text(v.value))];
      }
    }

    method SetEnum(k: Key, v: nat)
      modifies `pending
      ensures S() == old(Write(S(), k, Enum(v)))
    {
      pending := pending[k := Some(Enum(v))];
    }

    method ApplyAll()
      modifies this
      ensures S() == old(Apply(S()))
    {
      stored := map k | k in stored.Keys + pending.Keys && (if k in pending then pending[k].Some? else k in stored) ::
                  if k in pending then pending[k].value else stored[k];
      pending := map[];
    }

    /** reset_settings_if_defaults */
    method ResetSettingsIfDefaults(checkDark: bool)
      modifies this
      ensures S() == old(ResetIfDefaults(defaults, S(), checkDark))
    {
      var keys := KEYS;
      var uriIsDefault := ResetLoop(keys, checkDark);
      if uriIsDefault {
        ApplyAll();
      }
    }

    /** The loop over the keys, which is left at once if the first one, the uri, is not the default. */
    method ResetLoop(keys: seq<Key>, checkDark: bool) returns (uriIsDefault: bool)
      requires keys != [] && keys[0] == UriKey && forall j :: 1 <= j < |keys| ==> keys[j] != UriKey
      modifies `pending
      ensures uriIsDefault <==> old(Effective(defaults, S(), UriKey)) == DefaultOf(defaults, UriKey)
      ensures S() == if uriIsDefault then old(ResetDefaults(defaults, S(), keys, checkDark)) else old(S())
    {
      ghost var start := S();
      var i := 0;
      assert keys[0..] == keys;
      while i < |keys|
        invariant 0 <= i <= |keys|
        invariant i == 0 ==> S() == start
        invariant i > 0 ==> Effective(defaults, start, UriKey) == DefaultOf(defaults, UriKey)
        invariant ResetDefaults(defaults, S(), keys[i..], checkDark) == ResetDefaults(defaults, start, keys, checkDark)
      {
        var k := keys[i];
        assert keys[i..][0] == k && keys[i..][1..] == keys[i + 1..];
        i := i + 1;
        if !checkDark && k == UriDarkKey {
          continue;
        }
        var isDefault := Get(k) == DefaultOf(defaults, k);
        if k == UriKey && !isDefault {
          return false;
        }
        if isDefault {
          pending := pending[k := None];
        }
      }
      uriIsDefault := true;
    }

    /** set_background */
    method SetBackgroundTo(item: Option<Item>, setDark: bool)
      modifies this
      ensures S() == old(SetBackground(defaults, S(), item, setDark))
    {
      if item == None {
        return;
      }
      var i := item.value;
      SetText(UriKey, i.uri);
      if setDark {
        if i.uriDark.Some? && i.uriDark.value != "" {
          SetText(UriDarkKey, i.uriDark);
        } else {
          SetText(UriDarkKey, i.uri);
        }
      }
      assert S() == WriteUris(old(S()), i, setDark);
      WriteStyle(i);
      SetText(PcolorKey, i.pcolor);
      SetText(ScolorKey, i.scolor);
      assert S() == WriteItem(defaults, old(S()), i, setDark);
      ApplyAll();
      ResetSettingsIfDefaults(setDark);
    }

    /** The placement and shading part of set_background. */
    method WriteStyle(i: Item)
      modifies `pending
      ensures S() == old(WriteEnums(defaults, S(), i))
    {
      if i.flags.hasPlacement {
        SetEnum(OptionsKey, i.placement);
      } else if i.uri.Some? {
        var style := Get(OptionsKey);
        if NumberOf(style) == STYLE_NONE {
          SetEnum(OptionsKey, i.placement);
        }
      }
      if i.flags.hasShading {
        SetEnum(ShadingKey, i.shading);
      }
    }
  }

  class Panel {
    const settings: Store
    const lockSettings: Store
    var currentBackground: Item

    constructor (settings: Store, lockSettings: Store)
      requires settings != lockSettings
      ensures this.settings == settings && this.lockSettings == lockSettings
      ensures currentBackground == Reload(settings.defaults, settings.S())
    {
      this.settings, this.lockSettings := settings, lockSettings;
      currentBackground := BLANK;
      new;
      ReloadCurrentBg();
    }

    method ReloadCurrentBg()
      modifies `currentBackground
      ensures currentBackground == Reload(settings.defaults, settings.S())
    {
      var uri := TextOf(settings.Get(UriKey));
      var configured := New(if uri == "" then None else Some(uri));
      configured := configured.(name := Some("Current background"));
      configured := SetUriDark(configured, Some(TextOf(settings.Get(UriDarkKey))));
      configured := SetPlacement(configured, NumberOf(settings.Get(OptionsKey)));
      configured := SetShading(configured, NumberOf(settings.Get(ShadingKey)));
      configured := SetPcolor(configured, Some(TextOf(settings.Get(PcolorKey))));
      configured := SetScolor(configured, Some(TextOf(settings.Get(ScolorKey))));
      currentBackground := configured;
    }

    /** on_chooser_background_chosen_cb */
    method OnChosen(item: Option<Item>)
      requires settings != lockSettings
      modifies `currentBackground, settings, lockSettings
      ensures settings.S() == old(SetBackground(settings.defaults, settings.S(), item, true))
      ensures lockSettings.S() == old(SetBackground(lockSettings.defaults, lockSettings.S(), item, false))
      ensures currentBackground == Reload(settings.defaults, settings.S())
    {
      settings.SetBackgroundTo(item, true);
      lockSettings.SetBackgroundTo(item, false);
      ReloadCurrentBg();
    }
  }
}
