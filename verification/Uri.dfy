/**
 The address of a device: printed by `sprintf` when its routes are registered, read by `sscanf`
 when a request comes in.
 */
module Uri {
  import opened CText
  import opened Decimal
  import opened Devices

  const API_PREFIX := "/api/v1/"

  /** "/api/v1/%s/%d/%s". The number is a `size_t` that `%d` prints as an `int`. */
  function RoutePath(typeName: string, number: nat, endpoint: string): string {
    API_PREFIX + typeName + "/" + IntText(ToInt32(number)) + "/" + endpoint
  }

  /** What `sscanf` stores: a type segment, empty when there is none, and a byte, 0 when unread. */
  datatype UriFields = UriFields(typeName: string, number: nat)

  /** The type segment holds at most this many characters. */
  const SEGMENT_WIDTH := 32

  /** "/api/v1/%32[^/]/%hhd/" on a URI, query included. `%hhd` keeps the low byte. */
  function ScanUri(uri: string): UriFields {
    if !(API_PREFIX <= uri) then UriFields("", 0) else ScanSegment(uri[|API_PREFIX|..])
  }

  function ScanSegment(s: string): UriFields {
    var slash := Index(s, '/');
    var width := if slash <= SEGMENT_WIDTH then slash else SEGMENT_WIDTH;
    if width == 0 || width < slash || slash == |s| then UriFields(s[..width], 0)
    else UriFields(s[..width], Strtol(s[slash + 1..]).value % 256)
  }

  function PathOf(uri: string): string {
    uri[..Index(uri, '?')]
  }

  function QueryOf(uri: string): string {
    if Index(uri, '?') == |uri| then [] else uri[Index(uri, '?') + 1..]
  }

  /** A URI comes apart where it was put together. */
  lemma UriParts(path: string, query: string)
    requires '?' !in path
    ensures PathOf(path) == path && QueryOf(path) == ""
    ensures PathOf(path + "?" + query) == path && QueryOf(path + "?" + query) == query
  {
    IndexIs(path, '?', |path|);
    var uri := path + "?" + query;
    IndexIs(uri, '?', |path|);
    assert uri[..|path|] == path && uri[|path| + 1..] == query;
  }

  // ---- reading back what was printed ----

  predicate IsSegment(s: string) {
    s != [] && '/' !in s
  }

  lemma ScanSegmentReads(name: string, n: int, rest: string)
    requires IsSegment(name) && |name| <= SEGMENT_WIDTH && IsInt32(n)
    ensures ScanSegment(name + "/" + IntText(n) + "/" + rest) == UriFields(name, n % 256)
  {
    var s := name + "/" + IntText(n) + "/" + rest;
    IndexIs(s, '/', |name|);
    assert s[..|name|] == name;
    assert s[|name| + 1..] == IntText(n) + ("/" + rest);
    StrtolReadsIntText(n, "/" + rest);
  }

  lemma LowByte(n: nat)
    ensures ToInt32(n) % 256 == n % 256
  {
    var m: int := Wrap32(n);
    var q := n / 0x1_0000_0000;
    assert n == 256 * (0x100_0000 * q) + m;
    LowByteOf(m, 0x100_0000 * q);
    assert ToInt32(n) == m || ToInt32(n) == 256 * -0x100_0000 + m;
    LowByteOf(m, -0x100_0000);
  }

  lemma LowByteOf(m: int, k: int)
    ensures (256 * k + m) % 256 == m % 256
  {
    var q, r := m / 256, m % 256;
    assert 256 * k + m == 256 * (k + q) + r;
  }

  /** The printed address reads back as the type and the low byte of the number. */
  lemma ScanReadsRoute(t: DeviceType, number: nat, endpoint: string, tail: string)
    ensures ScanUri(RoutePath(UriName(t), number, endpoint) + tail) == UriFields(UriName(t), number % 256)
  {
    var uri := RoutePath(UriName(t), number, endpoint) + tail;
    UriNameShape(t);
    var s := UriName(t) + "/" + IntText(ToInt32(number)) + "/" + (endpoint + tail);
    assert uri == API_PREFIX + s;
    assert uri[|API_PREFIX|..] == s;
    ScanSegmentReads(UriName(t), ToInt32(number), endpoint + tail);
    LowByte(number);
  }

  // ---- printing is injective ----

  lemma CutsAgree(a: string, b: string, a': string, b': string)
    requires '/' !in a && '/' !in a' && a + "/" + b == a' + "/" + b'
    ensures a == a' && b == b'
  {
    var s := a + "/" + b;
    IndexIs(s, '/', |a|);
    IndexIs(s, '/', |a'|);
    assert s[..|a|] == a && s[..|a'|] == a';
    assert s[|a| + 1..] == b && s[|a'| + 1..] == b';
  }

  lemma IntTextIsSegment(n: int)
    ensures IsSegment(IntText(n))
  {
    NatTextValue(if n < 0 then -n else n);
  }

  lemma ToInt32Injective(m: nat, n: nat)
    requires m < TWO32 && n < TWO32 && ToInt32(m) == ToInt32(n)
    ensures m == n
  {
    assert Wrap32(m) == m && Wrap32(n) == n;
  }

  /** Equal paths come from equal types, numbers and endpoints. */
  lemma RoutePathInjective(name: string, m: nat, endpoint: string, name': string, n: nat, endpoint': string)
    requires IsSegment(name) && IsSegment(name') && m < TWO32 && n < TWO32
    requires RoutePath(name, m, endpoint) == RoutePath(name', n, endpoint')
    ensures name == name' && m == n && endpoint == endpoint'
  {
    var a, a' := IntText(ToInt32(m)), IntText(ToInt32(n));
    RoutePathSuffix(name, m, endpoint);
    RoutePathSuffix(name', n, endpoint');
    CutsAgree(name, a + "/" + endpoint, name', a' + "/" + endpoint');
    IntTextIsSegment(ToInt32(m));
    IntTextIsSegment(ToInt32(n));
    CutsAgree(a, endpoint, a', endpoint');
    IntTextInjective(ToInt32(m), ToInt32(n));
    ToInt32Injective(m, n);
  }

  lemma RoutePathSuffix(name: string, n: nat, endpoint: string)
    ensures API_PREFIX <= RoutePath(name, n, endpoint)
    ensures RoutePath(name, n, endpoint)[|API_PREFIX|..] == name + "/" + (IntText(ToInt32(n)) + "/" + endpoint)
  {
    var rest := name + "/" + (IntText(ToInt32(n)) + "/" + endpoint);
    assert RoutePath(name, n, endpoint) == API_PREFIX + rest;
  }
}
