/** Network numbers of addresses, and the hash keys made of them (yhiso.c). */
module RouteKeys {
  /** An interface: attached, up, its network and its subnet mask. */
  datatype If = If(attached: bool, up: bool, ia_net: bv32, mask: bv32)

  function Subnet(ifs: seq<If>, i: bv32, net: bv32): bv32 {
    if ifs == [] then net
    else if ifs[0].attached && ifs[0].up && net == ifs[0].ia_net then i & ifs[0].mask
    else Subnet(ifs[1..], i, net)
  }

  /** `IN_CLASSA`, `IN_CLASSB` and `IN_CLASSC`, and the network parts. */
  predicate InA(i: bv32) {
    i & 0x8000_0000 == 0
  }

  predicate InB(i: bv32) {
    i & 0xc000_0000 == 0x8000_0000
  }

  predicate InC(i: bv32) {
    i & 0xe000_0000 == 0xc000_0000
  }

  function NetA(i: bv32): bv32 {
    i & 0xff00_0000
  }

  function NetB(i: bv32): bv32 {
    i & 0xffff_0000
  }

  function NetC(i: bv32): bv32 {
    i & 0xffff_ff00
  }

  /** `yhin_netof` */
  function NetOf(ifs: seq<If>, i: bv32): bv32 {
    if InA(i) then Subnet(ifs, i, NetA(i))
    else if InB(i) then Subnet(ifs, i, NetB(i))
    else if InC(i) then Subnet(ifs, i, NetC(i))
    else 0
  }

  /** The number without the zero bytes at its low end. */
  function Shift(n: bv32): bv32 {
    if n & 0xff != 0 then n
    else if n & 0xff00 != 0 then n >> 8
    else if n & 0xff_0000 != 0 then n >> 16
    else n >> 24
  }

  lemma ShiftStep(n: bv32)
    requires n != 0 && n & 0xff == 0
    ensures n >> 8 != 0 && Shift(n >> 8) == Shift(n) && n >> 8 < n
  {
  }

  /** The loop of `yhinet_hash`. */
  method NetKey(net: bv32) returns (n: bv32)
    ensures n == Shift(net)
  {
    n := net;
    if n != 0 {
      while n & 0xff == 0
        invariant n != 0 && Shift(n) == Shift(net)
        decreases n
      {
        ShiftStep(n);
        n := n >> 8;
      }
    }
  }

  /** The keys of `yhinet_hash`. */
  function NetHash(ifs: seq<If>, a: bv32): bv32 {
    Shift(NetOf(ifs, a))
  }

  lemma {:induction false} SubnetZero(ifs: seq<If>)
    ensures Subnet(ifs, 0, 0) == 0
  {
    if ifs != [] {
      SubnetZero(ifs[1..]);
    }
  }

  /** The default network has the key that `yhrtalloc` takes for it. */
  lemma DefaultKey(ifs: seq<If>)
    ensures NetOf(ifs, 0) == 0 && NetHash(ifs, 0) == 0
  {
    SubnetZero(ifs);
  }

  // ----- what a network number is

  datatype Class = A | B | C | Other

  function FirstByte(a: bv32): bv32 {
    a >> 24
  }

  function ClassFor(first: bv32): Class {
    if first < 128 then A else if first < 192 then B else if first < 224 then C else Other
  }

  /** By the first of an address's four numbers. */
  function ClassOf(a: bv32): Class {
    ClassFor(FirstByte(a))
  }

  /** The leading numbers of an address of this class: networks have 2^24, 2^16 or 2^8 addresses. */
  function Leading(a: bv32, c: Class): bv32 {
    match c
    case A => a >> 24
    case B => a >> 16
    case C => a >> 8
    case Other => 0
  }

  /** The address with these leading numbers and zeros behind them. */
  function FirstAddress(lead: bv32, c: Class): bv32 {
    match c
    case A => lead << 24
    case B => lead << 16
    case C => lead << 8
    case Other => 0
  }

  /** The first address of its natural network. */
  function Natural(a: bv32): bv32 {
    FirstAddress(Leading(a, ClassOf(a)), ClassOf(a))
  }

  /** An interface in use on a network. */
  predicate On(f: If, net: bv32) {
    f.attached && f.up && f.ia_net == net
  }

  ghost predicate FirstOn(ifs: seq<If>, net: bv32, i: int) {
    0 <= i < |ifs| && On(ifs[i], net) && forall j :: 0 <= j < i ==> !On(ifs[j], net)
  }

  ghost predicate NoneOn(ifs: seq<If>, net: bv32) {
    forall i :: 0 <= i < |ifs| ==> !On(ifs[i], net)
  }

  /** n is the number of a's network: none for an address that is of no class; subnetted as the first interface on
      its natural network says; and that network itself when there is no such interface. */
  ghost predicate Network(ifs: seq<If>, a: bv32, n: bv32) {
    if ClassOf(a) == Other then n == 0 else Subnetted(ifs, a, Natural(a), n)
  }

  function Masked(a: bv32, f: If): bv32 {
    a & f.mask
  }

  ghost predicate Subnetted(ifs: seq<If>, a: bv32, net: bv32, n: bv32) {
    (NoneOn(ifs, net) && n == net) || exists i :: FirstOn(ifs, net, i) && n == Masked(a, ifs[i])
  }

  lemma ClassMasks(a: bv32)
    ensures InA(a) <==> ClassOf(a) == A
    ensures InB(a) <==> ClassOf(a) == B
    ensures InC(a) <==> ClassOf(a) == C
  {
  }

  lemma MasksA(a: bv32)
    ensures NetA(a) == FirstAddress(Leading(a, A), A)
  {
    assert a & 0xff00_0000 == (a >> 24) << 24;
  }

  lemma MasksB(a: bv32)
    ensures NetB(a) == FirstAddress(Leading(a, B), B)
  {
    assert a & 0xffff_0000 == (a >> 16) << 16;
  }

  lemma MasksC(a: bv32)
    ensures NetC(a) == FirstAddress(Leading(a, C), C)
  {
    assert a & 0xffff_ff00 == (a >> 8) << 8;
  }

  lemma {:induction false} SubnetIs(ifs: seq<If>, a: bv32, net: bv32)
    ensures Subnetted(ifs, a, net, Subnet(ifs, a, net))
  {
    hide Subnetted, On;
    if ifs == [] {
      SubnetNone(ifs, a, net);
    } else if On(ifs[0], net) {
      SubnetHere(ifs, a, net);
    } else {
      SubnetIs(ifs[1..], a, net);
      SubnetLater(ifs, a, net, Subnet(ifs[1..], a, net));
      Passed(ifs, a, net);
    }
  }

  lemma SubnetNone(ifs: seq<If>, a: bv32, net: bv32)
    requires ifs == []
    ensures Subnetted(ifs, a, net, Subnet(ifs, a, net))
  {
  }

  lemma SubnetHere(ifs: seq<If>, a: bv32, net: bv32)
    requires ifs != [] && On(ifs[0], net)
    ensures Subnetted(ifs, a, net, Subnet(ifs, a, net))
  {
    assert FirstOn(ifs, net, 0);
  }

  lemma Passed(ifs: seq<If>, a: bv32, net: bv32)
    requires ifs != [] && !On(ifs[0], net)
    ensures Subnet(ifs, a, net) == Subnet(ifs[1..], a, net)
  {
  }

  lemma SubnetLater(ifs: seq<If>, a: bv32, net: bv32, n: bv32)
    requires ifs != [] && !On(ifs[0], net) && Subnetted(ifs[1..], a, net, n)
    ensures Subnetted(ifs, a, net, n)
  {
    hide On, Masked;
    var rest := ifs[1..];
    if i :| FirstOn(rest, net, i) && n == Masked(a, rest[i]) {
      assert forall j :: 0 < j < i + 1 ==> ifs[j] == rest[j - 1];
      assert FirstOn(ifs, net, i + 1);
    } else {
      assert forall j :: 0 < j < |ifs| ==> ifs[j] == rest[j - 1];
    }
  }

  /** `yhin_netof` gives the number of the network. */
  lemma NetOfIs(ifs: seq<If>, a: bv32)
    ensures Network(ifs, a, NetOf(ifs, a))
  {
    hide ClassOf, Subnet, Subnetted, Natural;
    NetMasked(ifs, a);
    SubnetIs(ifs, a, Natural(a));
  }

  lemma NetMasked(ifs: seq<If>, a: bv32)
    ensures NetOf(ifs, a) == if ClassOf(a) == Other then 0 else Subnet(ifs, a, Natural(a))
  {
    hide Subnet, ClassOf, InA, InB, InC, NetA, NetB, NetC, FirstAddress, Leading;
    ClassMasks(a);
    MasksA(a);
    MasksB(a);
    MasksC(a);
  }

  // ----- addresses on one network

  ghost predicate SameNetwork(ifs: seq<If>, a: bv32, b: bv32) {
    exists n :: Network(ifs, a, n) && Network(ifs, b, n)
  }

  lemma NetworkOnce(ifs: seq<If>, a: bv32, n: bv32)
    ensures Network(ifs, a, n) <==> n == NetOf(ifs, a)
  {
    hide NetOf, ClassOf, Natural, On, Masked;
    NetOfIs(ifs, a);
  }

  /** `yhinet_netmatch` */
  lemma NetMatch(ifs: seq<If>, a: bv32, b: bv32)
    ensures NetOf(ifs, a) == NetOf(ifs, b) <==> SameNetwork(ifs, a, b)
  {
    hide NetOf, Network;
    NetOfIs(ifs, a);
    NetOfIs(ifs, b);
    forall n
      ensures Network(ifs, a, n) <==> n == NetOf(ifs, a)
      ensures Network(ifs, b, n) <==> n == NetOf(ifs, b)
    {
      NetworkOnce(ifs, a, n);
      NetworkOnce(ifs, b, n);
    }
  }

  /** Of one class and one natural network. */
  predicate Together(a: bv32, b: bv32) {
    ClassOf(a) == ClassOf(b) != Other && Leading(a, ClassOf(a)) == Leading(b, ClassOf(a))
  }

  lemma ZerosA(a: bv32)
    ensures var n := FirstAddress(Leading(a, A), A); FirstByte(n) == FirstByte(a) && Leading(n, A) == Leading(a, A)
  {
    assert ((a >> 24) << 24) >> 24 == a >> 24;
  }

  lemma ZerosB(a: bv32)
    ensures var n := FirstAddress(Leading(a, B), B); FirstByte(n) == FirstByte(a) && Leading(n, B) == Leading(a, B)
  {
    assert ((a >> 16) << 16) >> 24 == a >> 24;
    assert ((a >> 16) << 16) >> 16 == a >> 16;
  }

  lemma ZerosC(a: bv32)
    ensures var n := FirstAddress(Leading(a, C), C); FirstByte(n) == FirstByte(a) && Leading(n, C) == Leading(a, C)
  {
    assert ((a >> 8) << 8) >> 24 == a >> 24;
    assert ((a >> 8) << 8) >> 8 == a >> 8;
  }

  lemma Zeros(a: bv32, c: Class)
    requires c != Other
    ensures var n := FirstAddress(Leading(a, c), c); FirstByte(n) == FirstByte(a) && Leading(n, c) == Leading(a, c)
  {
    hide FirstAddress, Leading, FirstByte;
    match c
    case A => ZerosA(a);
    case B => ZerosB(a);
    case C => ZerosC(a);
  }

  lemma NaturalOwn(a: bv32)
    requires ClassOf(a) != Other
    ensures Together(Natural(a), a)
  {
    hide FirstByte, Leading, FirstAddress, ClassFor;
    Zeros(a, ClassOf(a));
  }

  lemma NaturalTogether(a: bv32, b: bv32)
    requires ClassOf(a) != Other && ClassOf(b) != Other
    ensures Natural(a) == Natural(b) <==> Together(a, b)
  {
    NaturalOwn(a);
    NaturalOwn(b);
    hide FirstByte, Leading, FirstAddress, ClassFor;
  }

  /** Networks that no interface in use is on are not subnetted: two addresses are on one of them exactly when they
      agree in class and in as many of their leading numbers as the class says. */
  lemma FarNetworks(ifs: seq<If>, a: bv32, b: bv32)
    requires ClassOf(a) != Other && ClassOf(b) != Other && NoneOn(ifs, Natural(a)) && NoneOn(ifs, Natural(b))
    ensures SameNetwork(ifs, a, b) <==> Together(a, b)
  {
    hide ClassOf, Natural, Together, On, Masked;
    NaturalTogether(a, b);
    if Together(a, b) {
      assert Network(ifs, a, Natural(a)) && Network(ifs, b, Natural(a));
    }
  }

  /** A network that an interface in use is on is subnetted by the mask of the first of these. */
  lemma NearNetworks(ifs: seq<If>, a: bv32, b: bv32, i: nat)
    requires Together(a, b) && FirstOn(ifs, Natural(a), i)
    ensures SameNetwork(ifs, a, b) <==> a & ifs[i].mask == b & ifs[i].mask
  {
    MaskedIs(a, b, ifs[i]);
    TogetherClasses(a, b);
    NaturalTogether(a, b);
    NearByMask(ifs, a, b, i);
    hide ClassOf, Natural, Together, On, Masked, SameNetwork;
  }

  lemma MaskedIs(a: bv32, b: bv32, f: If)
    ensures a & f.mask == Masked(a, f) && b & f.mask == Masked(b, f)
  {
  }

  lemma TogetherClasses(a: bv32, b: bv32)
    requires Together(a, b)
    ensures ClassOf(a) != Other && ClassOf(b) != Other
  {
    hide ClassFor, FirstByte, Leading;
  }

  lemma NearByMask(ifs: seq<If>, a: bv32, b: bv32, i: nat)
    requires ClassOf(a) != Other && ClassOf(b) != Other && Natural(a) == Natural(b) && FirstOn(ifs, Natural(a), i)
    ensures SameNetwork(ifs, a, b) <==> Masked(a, ifs[i]) == Masked(b, ifs[i])
  {
    hide ClassOf, Natural, On, Masked;
    if Masked(a, ifs[i]) == Masked(b, ifs[i]) {
      assert Network(ifs, a, Masked(a, ifs[i])) && Network(ifs, b, Masked(a, ifs[i]));
    }
  }

  /** Its mask leaves an address on its natural network. */
  ghost predicate MasksKeep(ifs: seq<If>, a: bv32) {
    forall i :: FirstOn(ifs, Natural(a), i) ==> Together(Masked(a, ifs[i]), a)
  }

  /** So addresses of different natural networks are never taken to be on one. */
  lemma ApartNetworks(ifs: seq<If>, a: bv32, b: bv32)
    requires ClassOf(a) != Other && ClassOf(b) != Other && MasksKeep(ifs, a) && MasksKeep(ifs, b)
    requires SameNetwork(ifs, a, b)
    ensures Together(a, b)
  {
    hide ClassFor, FirstByte, Leading, Natural, Network, MasksKeep;
    var n :| Network(ifs, a, n) && Network(ifs, b, n);
    OnOwn(ifs, a, n);
    OnOwn(ifs, b, n);
  }

  lemma OnOwn(ifs: seq<If>, a: bv32, n: bv32)
    requires ClassOf(a) != Other && MasksKeep(ifs, a) && Network(ifs, a, n)
    ensures Together(n, a)
  {
    hide ClassOf, Natural, Together, On, Masked;
    NaturalOwn(a);
  }
}
