/** Which resolver results an event preset may connect to: private addresses only, and one bad
    address spoils the whole answer. */
module AddressPin {
  import opened Prelude

  datatype Address = V4(n: nat) | V6(n: nat)

  const V4_COUNT: nat := 0x1_0000_0000

  /** A network: the `index`-th block of `size` addresses. */
  datatype Net = Net(index: nat, size: nat)

  /** Membership as it is computed: clear the host bits and compare with the first address. */
  predicate InNet(n: nat, net: Net) {
    net.size > 0 && n - n % net.size == net.index * net.size
  }

  lemma InNetIsRange(n: nat, net: Net)
    requires net.size > 0
    ensures InNet(n, net) <==> net.index * net.size <= n < net.index * net.size + net.size
  {
    var k, size, q, r := net.index, net.size, n / net.size, n % net.size;
    assert n == q * size + r;
    if q < k {
      assert (q + 1) * size <= k * size;
    } else if q > k {
      assert (k + 1) * size <= q * size;
    }
  }

  predicate InAny(n: nat, nets: seq<Net>) {
    exists i :: 0 <= i < |nets| && InNet(n, nets[i])
  }

  // ---- the address classes of the IP address library ----

  const TWO16: nat := 0x1_0000
  const TWO20: nat := 0x10_0000
  const TWO24: nat := 0x100_0000
  const TWO28: nat := 0x1000_0000
  /** Sizes of IPv6 networks: a /16 has 2^112 addresses. */
  const SLASH16: nat := 0x1_0000_0000_0000_0000_0000_0000_0000

  const PRIVATE_V4: seq<Net> := [Net(10, TWO24), Net(0xac1, TWO20), Net(0xc0a8, TWO16)]
  const PRIVATE_V6: Net := Net(0x7e, 0x200 * SLASH16)

  /** 127/8, 169.254/16, 224/4 and 240/4: loopback, link-local, multicast, reserved. */
  const REFUSED_V4: seq<Net> := [Net(127, TWO24), Net(0xa9fe, TWO16), Net(14, TWO28), Net(15, TWO28)]

  /** fe80::/10 and ff00::/8, then the reserved networks in the library's order. */
  const REFUSED_V6: seq<Net> := [
    Net(0x3fa, 0x40 * SLASH16), Net(0xff, 0x100 * SLASH16),
    Net(0, 0x100 * SLASH16), Net(1, 0x100 * SLASH16), Net(1, 0x200 * SLASH16), Net(1, 0x400 * SLASH16),
    Net(1, 0x800 * SLASH16), Net(1, 0x1000 * SLASH16), Net(2, 0x2000 * SLASH16), Net(3, 0x2000 * SLASH16),
    Net(4, 0x2000 * SLASH16), Net(5, 0x2000 * SLASH16), Net(6, 0x2000 * SLASH16), Net(14, 0x1000 * SLASH16),
    Net(30, 0x800 * SLASH16), Net(62, 0x400 * SLASH16), Net(0x1fc, 0x80 * SLASH16)]

  function Mapped(n: nat): Option<nat> {
    if n / V4_COUNT == 0xffff then Some(n % V4_COUNT) else None
  }

  predicate AllowedV4(n: nat) {
    && n != 0
    && !InAny(n, REFUSED_V4)
    && n != 0xffff_ffff
    && InAny(n, PRIVATE_V4)
  }

  /** The layered test. */
  predicate Allowed(a: Address) {
    match a
    case V4(n) => AllowedV4(n)
    case V6(n) =>
      if Mapped(n).Some? then AllowedV4(Mapped(n).value)
      else n != 0 && n != 1 && !InAny(n, REFUSED_V6) && InNet(n, PRIVATE_V6)
  }

  // ---- the same by the standards alone ----

  /** The three blocks of section 3 of RFC 1918, by first and last address. */
  predicate Rfc1918(n: nat) {
    || 0x0a00_0000 <= n <= 0x0aff_ffff
    || 0xac10_0000 <= n <= 0xac1f_ffff
    || 0xc0a8_0000 <= n <= 0xc0a8_ffff
  }

  /** fc00::/7 of section 3.1 of RFC 4193. */
  predicate UniqueLocal(n: nat) {
    0xfc00 * SLASH16 <= n < 0xfe00 * SLASH16
  }

  /** An IPv4-mapped form (section 2.5.5.2 of RFC 4291) of a private address. */
  predicate MappedPrivate(n: nat) {
    exists m | 0 <= m < V4_COUNT :: Rfc1918(m) && n == 0xffff * V4_COUNT + m
  }

  predicate Private(a: Address) {
    match a
    case V4(n) => Rfc1918(n)
    case V6(n) => UniqueLocal(n) || MappedPrivate(n)
  }

  lemma PrivateV4(n: nat)
    ensures InAny(n, PRIVATE_V4) <==> Rfc1918(n)
  {
    InNetIsRange(n, PRIVATE_V4[0]);
    InNetIsRange(n, PRIVATE_V4[1]);
    InNetIsRange(n, PRIVATE_V4[2]);
    assert InNet(n, PRIVATE_V4[0]) <==> 0x0a00_0000 <= n <= 0x0aff_ffff;
    assert InNet(n, PRIVATE_V4[1]) <==> 0xac10_0000 <= n <= 0xac1f_ffff;
    assert InNet(n, PRIVATE_V4[2]) <==> 0xc0a8_0000 <= n <= 0xc0a8_ffff;
  }

  /** No private IPv4 address is in a class that is refused first. */
  lemma PrivateV4NotRefused(n: nat)
    requires Rfc1918(n)
    ensures !InAny(n, REFUSED_V4)
  {
    forall i | 0 <= i < |REFUSED_V4| ensures !InNet(n, REFUSED_V4[i]) {
      InNetIsRange(n, REFUSED_V4[i]);
    }
  }

  lemma AllowedV4IsPrivate(n: nat)
    ensures AllowedV4(n) <==> Rfc1918(n)
  {
    PrivateV4(n);
    if Rfc1918(n) {
      PrivateV4NotRefused(n);
    }
  }

  /** No unique local address is in a class that is refused first. */
  lemma UniqueLocalNotRefused(n: nat)
    requires UniqueLocal(n)
    ensures !InAny(n, REFUSED_V6)
  {
    forall i | 0 <= i < |REFUSED_V6| ensures !InNet(n, REFUSED_V6[i]) {
      InNetIsRange(n, REFUSED_V6[i]);
    }
  }

  lemma MappedIsPrivate(n: nat)
    ensures MappedPrivate(n) <==> Mapped(n).Some? && Rfc1918(Mapped(n).value)
  {
    if Mapped(n).Some? && Rfc1918(Mapped(n).value) {
      assert n == 0xffff * V4_COUNT + Mapped(n).value;
    }
  }

  /** The layered test accepts exactly the private addresses. */
  lemma AllowedExactlyPrivate(a: Address)
    ensures Allowed(a) <==> Private(a)
  {
    match a
    case V4(n) => AllowedV4IsPrivate(n);
    case V6(n) =>
      MappedIsPrivate(n);
      if Mapped(n).Some? {
        AllowedV4IsPrivate(Mapped(n).value);
        assert n < 0x1_0000 * V4_COUNT;
      } else {
        InNetIsRange(n, PRIVATE_V6);
        if UniqueLocal(n) {
          UniqueLocalNotRefused(n);
        }
      }
  }

  // ---- picking an address ----

  /** One resolver result: the text of its address, if it has one. */
  type Info = Option<string>

  predicate Parses(parse: string -> Option<Address>, info: Info) {
    info.Some? && parse(info.value).Some?
  }

  predicate Bad(parse: string -> Option<Address>, info: Info) {
    Parses(parse, info) && !Allowed(parse(info.value).value)
  }

  /** Some address parses and every one that parses is private. */
  predicate Pinnable(parse: string -> Option<Address>, infos: seq<Info>) {
    && (exists info :: info in infos && Parses(parse, info))
    && (forall info :: info in infos && Parses(parse, info) ==> Private(parse(info.value).value))
  }

  predicate FirstParsed(parse: string -> Option<Address>, infos: seq<Info>, k: nat)
    requires k < |infos|
  {
    Parses(parse, infos[k]) && forall j :: 0 <= j < k ==> !Parses(parse, infos[j])
  }

  /** The pin is the first address that parses. */
  method PickPinnedAddress(parse: string -> Option<Address>, infos: seq<Info>) returns (pin: Option<string>)
    ensures pin.Some? <==> Pinnable(parse, infos)
    ensures pin.Some? ==> exists k :: 0 <= k < |infos| && infos[k] == pin && FirstParsed(parse, infos, k)
  {
    pin := None;
    var i := 0;
    while i < |infos|
      invariant 0 <= i <= |infos|
      invariant forall j :: 0 <= j < i ==> !Bad(parse, infos[j])
      invariant pin.None? ==> forall j :: 0 <= j < i ==> !Parses(parse, infos[j])
      invariant pin.Some? ==> exists k :: 0 <= k < i && infos[k] == pin && FirstParsed(parse, infos, k)
    {
      var info := infos[i];
      if Parses(parse, info) {
        AllowedExactlyPrivate(parse(info.value).value);
        if !Allowed(parse(info.value).value) {
          return None;
        }
        if pin.None? {
          pin := info;
        }
      }
      i := i + 1;
    }
    forall info | info in infos && Parses(parse, info) ensures Private(parse(info.value).value) {
      AllowedExactlyPrivate(parse(info.value).value);
      var j :| 0 <= j < |infos| && infos[j] == info;
      assert !Bad(parse, infos[j]);
    }
  }

  /** The verdict does not depend on the order in which the resolver lists its results. */
  lemma VerdictIgnoresOrder(parse: string -> Option<Address>, a: seq<Info>, b: seq<Info>)
    requires multiset(a) == multiset(b)
    ensures Pinnable(parse, a) <==> Pinnable(parse, b)
  {
    forall info: Info ensures info in a <==> info in b {
      assert info in a <==> info in multiset(a);
      assert info in b <==> info in multiset(b);
    }
  }
}
