/** The key under which a D-Bus proxy is stored. */
module StorageKeys {
  datatype BusType = SystemBus | SessionBus

  /** What a caller asks a proxy for. */
  datatype Request = Request(bus: BusType, name: string, path: string, iface: string)

  const PROXY: string := "CcObjectStorage::dbus-proxy("

  /** The formatted key; the bus is not part of it. */
  function KeyOf(r: Request): string {
    PROXY + r.name + [','] + r.path + [','] + r.iface + [')']
  }

  predicate CommaFree(s: string) { ',' !in s }

  predicate Letter(c: char) { 'A' <= c <= 'Z' || 'a' <= c <= 'z' || '0' <= c <= '9' || c == '_' }

  /** The characters of bus names, section "Valid Names" of the D-Bus Specification. */
  predicate NameText(s: string) { forall i :: 0 <= i < |s| ==> Letter(s[i]) || s[i] == '-' || s[i] == '.' || s[i] == ':' }

  /** The characters of object paths, section "Valid Object Paths" of the D-Bus Specification. */
  predicate PathText(s: string) { forall i :: 0 <= i < |s| ==> Letter(s[i]) || s[i] == '/' }

  const DEFAULT_KEYS: seq<string> := [
    "CcObjectStorage::nm-client", "CcObjectStorage::hostname",
    "CcObjectStorage::mm-manager", "CcObjectStorage::pw-quality-settings"]

  /** The text of a key. */
  lemma KeyText(bus: BusType)
    ensures KeyOf(Request(bus, "n", "p", "i")) == "CcObjectStorage::dbus-proxy(n,p,i)"
  {
    assert PROXY + "n" + [','] + "p" + [','] + "i" + [')'] == PROXY + "n,p,i)";
  }

  /** A comma-free field ends at the first comma. */
  lemma {:induction false} FieldsMatch(a: string, b: string, x: string, y: string)
    requires CommaFree(a) && CommaFree(b) && a + [','] + x == b + [','] + y
    ensures a == b && x == y
  {
    var s, t := a + [','] + x, b + [','] + y;
    if a == [] || b == [] {
      assert s[0] == t[0];
      assert a == b == [];
      assert s[1..] == x && t[1..] == y;
    } else {
      assert s[0] == t[0] && a[0] == b[0];
      assert s[1..] == a[1..] + [','] + x && t[1..] == b[1..] + [','] + y;
      FieldsMatch(a[1..], b[1..], x, y);
      assert a == [a[0]] + a[1..] && b == [b[0]] + b[1..];
    }
  }

  /** Two requests whose names and paths have no comma share a key exactly when they agree on name, path
      and interface, whatever their buses. */
  lemma KeySharedIff(a: Request, b: Request)
    requires CommaFree(a.name) && CommaFree(a.path) && CommaFree(b.name) && CommaFree(b.path)
    ensures KeyOf(a) == KeyOf(b) <==> a.name == b.name && a.path == b.path && a.iface == b.iface
  {
    if KeyOf(a) == KeyOf(b) {
      var ra, rb := a.path + [','] + a.iface, b.path + [','] + b.iface;
      var n := |PROXY|;
      assert KeyOf(a) == PROXY + (a.name + [','] + ra) + [')'];
      assert KeyOf(b) == PROXY + (b.name + [','] + rb) + [')'];
      assert KeyOf(a)[n..|KeyOf(a)| - 1] == a.name + [','] + ra;
      assert KeyOf(b)[n..|KeyOf(b)| - 1] == b.name + [','] + rb;
      FieldsMatch(a.name, b.name, ra, rb);
      FieldsMatch(a.path, b.path, a.iface, b.iface);
    }
  }

  /** For names and paths that the D-Bus Specification allows, the key identifies the request up to its bus. */
  lemma ValidKeysAreInjective(a: Request, b: Request)
    requires NameText(a.name) && NameText(b.name) && PathText(a.path) && PathText(b.path)
    requires KeyOf(a) == KeyOf(b)
    ensures a == b.(bus := a.bus)
  {
    KeySharedIff(a, b);
  }

  /** Without the hypothesis two requests can collide. */
  lemma CommaWitness()
    ensures var a, b := Request(SystemBus, "a,b", "c", "d"), Request(SystemBus, "a", "b,c", "d");
      a != b && KeyOf(a) == KeyOf(b)
  {
    var a, b := Request(SystemBus, "a,b", "c", "d"), Request(SystemBus, "a", "b,c", "d");
    assert KeyOf(a) == PROXY + "a,b,c,d)" && KeyOf(b) == PROXY + "a,b,c,d)";
    assert |a.name| != |b.name|;
  }

  /** No request, valid or not, has the key of a default object. */
  lemma NeverADefaultKey(r: Request)
    ensures KeyOf(r) !in DEFAULT_KEYS
  {
    var k := KeyOf(r);
    assert k[17] == PROXY[17] == 'd';
    assert DEFAULT_KEYS[0][17] == 'n' && DEFAULT_KEYS[1][17] == 'h';
    assert DEFAULT_KEYS[2][17] == 'm' && DEFAULT_KEYS[3][17] == 'p';
  }
}
