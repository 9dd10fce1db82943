/**
 The outbound guard: which addresses a fetch of a user-configured URL may reach, and the loops that resolve and connect.
 Addresses are the integers the ipaddress module works on.
 */
module OutboundGuard {
  import opened Wrappers

  const TWO_32: nat := 0x1_0000_0000
  const TWO_128: nat := 0x1_0000_0000_0000_0000_0000_0000_0000_0000

  type V4Bits = n: nat | n < TWO_32

  type V6Bits = n: nat | n < TWO_128

  datatype Address = V4(v4: V4Bits) | V6(v6: V6Bits)

  // ---------------------------------------------------------------------------------------------
  // Address rules
  // ---------------------------------------------------------------------------------------------

  /** Four octets as an address. */
  function Octets(a: nat, b: nat, c: nat, d: nat): V4Bits
    requires a < 256 && b < 256 && c < 256 && d < 256
  {
    a * 0x100_0000 + b * 0x1_0000 + c * 0x100 + d
  }

  predicate LinkLocalV4(x: V4Bits)      // 169.254.0.0/16
  {
    x / 0x1_0000 == 169 * 256 + 254
  }

  predicate LinkLocalV6(x: V6Bits)      // fe80::/10
  {
    0xfe80_0000_0000_0000_0000_0000_0000_0000 <= x < 0xfec0_0000_0000_0000_0000_0000_0000_0000
  }

  predicate MetadataV4(x: V4Bits)
  {
    x == Octets(100, 100, 100, 200) || x == Octets(168, 63, 129, 16)
  }

  predicate MetadataV6(x: V6Bits)
  {
    || x == 0xfd00_0ec2_0000_0000_0000_0000_0000_0254
    || x == 0xfd00_0ec2_0000_0000_0000_0000_0000_0023
    || x == 0xfd20_00ce_0000_0000_0000_0000_0000_0254
    || x == 0xfd00_00c1_0000_0000_0000_0000_a9fe_a9fe
  }

  predicate MulticastV4(x: V4Bits) { x / 0x1000_0000 == 14 }      // 224.0.0.0/4

  predicate ReservedV4(x: V4Bits) { x / 0x1000_0000 == 15 }       // 240.0.0.0/4

  predicate MulticastV6(x: V6Bits)      // ff00::/8
  {
    x >= 0xff00_0000_0000_0000_0000_0000_0000_0000
  }

  const MAPPED_PREFIX: nat := 0xffff_0000_0000                                   // ::ffff:0:0/96
  const NAT64_PREFIX: nat := 0x0064_ff9b_0000_0000_0000_0000_0000_0000           // 64:ff9b::/96
  const NAT64_LOCAL_PREFIX: nat := 0x0064_ff9b_0001_0000_0000_0000_0000_0000     // 64:ff9b:1::/48
  const NAT64_LOCAL_END: nat := 0x0064_ff9b_0002_0000_0000_0000_0000_0000

  predicate InSlash96(x: V6Bits, prefix: nat)
  {
    prefix <= x < prefix + TWO_32
  }

  function Low32(x: V6Bits): V4Bits { x % TWO_32 }

  /** `_embedded_ipv4`. */
  function EmbeddedV4(x: V6Bits): Option<V4Bits>
  {
    if InSlash96(x, MAPPED_PREFIX) then Some(Low32(x))
    else if InSlash96(x, NAT64_PREFIX) || InSlash96(x, 0) then Some(Low32(x))
    else None
  }

  predicate LinkLocalOrMetadataV4(x: V4Bits)
  {
    LinkLocalV4(x) || MetadataV4(x)
  }

  predicate BlockedV4(x: V4Bits)
  {
    LinkLocalOrMetadataV4(x) || MulticastV4(x) || ReservedV4(x)
  }

  predicate LocalUseNat64Blocked(x: V6Bits)
  {
    NAT64_LOCAL_PREFIX <= x < NAT64_LOCAL_END && LinkLocalOrMetadataV4(Low32(x))
  }

  /** `is_blocked_destination`. */
  predicate IsBlocked(addr: Address)
  {
    match addr
    case V4(x) => BlockedV4(x)
    case V6(x) =>
      var embedded := EmbeddedV4(x);
      if embedded.Some? && BlockedV4(embedded.value) then true
      else if LocalUseNat64Blocked(x) then true
      else LinkLocalV6(x) || MetadataV6(x) || MulticastV6(x)
  }

  // ---------------------------------------------------------------------------------------------
  // The verdict on every address, in numbers
  // ---------------------------------------------------------------------------------------------

  /**
   Refused are exactly 169.254.0.0 to 169.254.255.255, 100.100.100.200, 168.63.129.16, and everything from 224.0.0.0 on.
   */
  lemma V4Verdict(x: V4Bits)
    ensures IsBlocked(V4(x))
       <==> || 0xa9fe_0000 <= x <= 0xa9fe_ffff
            || x == 0x6464_64c8 || x == 0xa83f_8110
            || x >= 0xe000_0000
  {}

  /**
   Outside the prefixes that carry an IPv4 address, refused are exactly fe80::/10, ff00::/8 and the four metadata
   addresses fd00:ec2::254, fd00:ec2::23, fd20:ce::254 and fd00:c1::a9fe:a9fe.
   */
  lemma V6Verdict(y: V6Bits)
    requires y >= 0x1_0000_0000                                                              // ::/96
    requires !(0xffff_0000_0000 <= y < 0x1_0000_0000_0000)                                   // ::ffff:0:0/96
    requires !(0x0064_ff9b_0000_0000_0000_0000_0000_0000 <= y < 0x0064_ff9b_0000_0000_0000_0001_0000_0000)
    requires !(0x0064_ff9b_0001_0000_0000_0000_0000_0000 <= y < 0x0064_ff9b_0002_0000_0000_0000_0000_0000)
    ensures IsBlocked(V6(y))
       <==> || 0xfe80_0000_0000_0000_0000_0000_0000_0000 <= y <= 0xfebf_ffff_ffff_ffff_ffff_ffff_ffff_ffff
            || y >= 0xff00_0000_0000_0000_0000_0000_0000_0000
            || y == 0xfd00_0ec2_0000_0000_0000_0000_0000_0254
            || y == 0xfd00_0ec2_0000_0000_0000_0000_0000_0023
            || y == 0xfd20_00ce_0000_0000_0000_0000_0000_0254
            || y == 0xfd00_00c1_0000_0000_0000_0000_a9fe_a9fe
  {}

  /** In ::/96, ::ffff:0:0/96 and 64:ff9b::/96 the verdict is that of the IPv4 address in the last 32 bits. */
  lemma EmbeddedVerdict(y: V6Bits)
    requires || y < 0x1_0000_0000
             || 0xffff_0000_0000 <= y < 0x1_0000_0000_0000
             || 0x0064_ff9b_0000_0000_0000_0000_0000_0000 <= y < 0x0064_ff9b_0000_0000_0000_0001_0000_0000
    ensures var x := y % 0x1_0000_0000;
            IsBlocked(V6(y))
            <==> 0xa9fe_0000 <= x <= 0xa9fe_ffff || x == 0x6464_64c8 || x == 0xa83f_8110 || x >= 0xe000_0000
  {}

  /** In 64:ff9b:1::/48 it is decided by link-local and metadata addresses in the last 32 bits alone. */
  lemma LocalUseVerdict(y: V6Bits)
    requires 0x0064_ff9b_0001_0000_0000_0000_0000_0000 <= y < 0x0064_ff9b_0002_0000_0000_0000_0000_0000
    ensures var x := y % 0x1_0000_0000;
            IsBlocked(V6(y)) <==> 0xa9fe_0000 <= x <= 0xa9fe_ffff || x == 0x6464_64c8 || x == 0xa83f_8110
  {}

  // ---------------------------------------------------------------------------------------------
  // No spelling of an IPv4 address gets a different verdict
  // ---------------------------------------------------------------------------------------------

  lemma LowBits(prefix: nat, x: V4Bits)
    requires prefix % TWO_32 == 0 && prefix + x < TWO_128
    ensures Low32(prefix + x) == x
  {
    assert (prefix + x) % TWO_32 == x by {
      var q := prefix / TWO_32;
      assert prefix + x == q * TWO_32 + x;
    }
  }

  /** For every IPv4 address, the mapped, compatible and well-known NAT64 forms are judged exactly like the address. */
  lemma EmbeddedFormsGetTheSameVerdict(x: V4Bits)
    ensures IsBlocked(V6(0xffff_0000_0000 + x)) == IsBlocked(V4(x))                                // ::ffff:0:0/96
    ensures IsBlocked(V6(x)) == IsBlocked(V4(x))                                                 // ::/96
    ensures IsBlocked(V6(0x0064_ff9b_0000_0000_0000_0000_0000_0000 + x)) == IsBlocked(V4(x))      // 64:ff9b::/96
  {
    LowBits(MAPPED_PREFIX, x);
    LowBits(0, x);
    LowBits(NAT64_PREFIX, x);
  }

  /**
   The RFC 6052 (section 2.2) layouts of x inside 64:ff9b:1::/48. `subnet` is what the operator puts between the /48
   and a longer prefix; bits 64 to 71 stay zero, and so does the suffix.
   */
  function Layout48(x: V4Bits): V6Bits
  {
    NAT64_LOCAL_PREFIX + x / 0x1_0000 * 0x1_0000_0000_0000_0000 + x % 0x1_0000 * 0x100_0000_0000
  }

  function Layout56(subnet: nat, x: V4Bits): V6Bits
    requires subnet < 0x100
  {
    NAT64_LOCAL_PREFIX + subnet * 0x100_0000_0000_0000_0000 + x / 0x100_0000 * 0x1_0000_0000_0000_0000
    + x % 0x100_0000 * 0x1_0000_0000
  }

  function Layout64(subnet: nat, x: V4Bits): V6Bits
    requires subnet < 0x1_0000
  {
    NAT64_LOCAL_PREFIX + subnet * 0x1_0000_0000_0000_0000 + x * 0x100_0000
  }

  function Layout96(subnet: nat, x: V4Bits): V6Bits
    requires subnet < 0x1_0000_0000_0000
  {
    NAT64_LOCAL_PREFIX + subnet / 0x1_0000_0000 * 0x1_0000_0000_0000_0000 + subnet % 0x1_0000_0000 * TWO_32 + x
  }

  lemma Low32Of(high: nat, low: V4Bits)
    requires high * TWO_32 + low < TWO_128
    ensures Low32(high * TWO_32 + low) == low
  {
    assert (high * TWO_32 + low) % TWO_32 == low;
  }

  lemma Slash48IsAllowed(x: V4Bits)
    ensures !IsBlocked(V6(Layout48(x)))
  {
    var high := NAT64_LOCAL_PREFIX / TWO_32 + x / 0x1_0000 * TWO_32 + x % 0x1_0000 * 0x100;
    Low32Of(high, 0);
    assert Layout48(x) == high * TWO_32 + 0;
    LocalUseVerdict(Layout48(x));
  }

  lemma Slash56IsAllowed(subnet: nat, x: V4Bits)
    requires subnet < 0x100
    ensures !IsBlocked(V6(Layout56(subnet, x)))
  {
    var high := NAT64_LOCAL_PREFIX / TWO_32 + subnet * 0x100_0000_0000 + x / 0x100_0000 * TWO_32 + x % 0x100_0000;
    Low32Of(high, 0);
    assert Layout56(subnet, x) == high * TWO_32 + 0;
    LocalUseVerdict(Layout56(subnet, x));
  }

  /** Only the last octet of x reaches the low 32 bits, as d.0.0.0. */
  lemma Slash64IsAllowed(subnet: nat, x: V4Bits)
    requires subnet < 0x1_0000
    ensures !IsBlocked(V6(Layout64(subnet, x)))
  {
    var high := NAT64_LOCAL_PREFIX / TWO_32 + subnet * TWO_32 + x / 0x100;
    var low := x % 0x100 * 0x100_0000;
    Low32Of(high, low);
    assert Layout64(subnet, x) == high * TWO_32 + low;
    LocalUseVerdict(Layout64(subnet, x));
  }

  lemma Slash96Verdict(subnet: nat, x: V4Bits)
    requires subnet < 0x1_0000_0000_0000
    ensures IsBlocked(V6(Layout96(subnet, x)))
       <==> 0xa9fe_0000 <= x <= 0xa9fe_ffff || x == 0x6464_64c8 || x == 0xa83f_8110
  {
    var high := NAT64_LOCAL_PREFIX / TWO_32 + subnet / TWO_32 * TWO_32 + subnet % TWO_32;
    Low32Of(high, x);
    assert Layout96(subnet, x) == high * TWO_32 + x;
    LocalUseVerdict(Layout96(subnet, x));
  }

  /**
   The /48, /56 and /64 layouts are never refused, whatever the address; the /96 layout exactly for link-local and
   metadata.
   */
  lemma LocalUseLayouts(subnet: nat, x: V4Bits)
    ensures !IsBlocked(V6(Layout48(x)))
    ensures subnet < 0x100 ==> !IsBlocked(V6(Layout56(subnet, x)))
    ensures subnet < 0x1_0000 ==> !IsBlocked(V6(Layout64(subnet, x)))
    ensures subnet < 0x1_0000_0000_0000 ==>
              (IsBlocked(V6(Layout96(subnet, x)))
               <==> 0xa9fe_0000 <= x <= 0xa9fe_ffff || x == 0x6464_64c8 || x == 0xa83f_8110)
  {
    Slash48IsAllowed(x);
    if subnet < 0x100 { Slash56IsAllowed(subnet, x); }
    if subnet < 0x1_0000 { Slash64IsAllowed(subnet, x); }
    if subnet < 0x1_0000_0000_0000 { Slash96Verdict(subnet, x); }
  }

  /**
   Loopback, RFC 1918, CGNAT and ULA stay reachable, apart from the metadata addresses inside them; so does 0.0.0.0.
   */
  lemma PrivateRangesStayReachable(x: V4Bits, y: V6Bits)
    ensures x / 0x100_0000 in {0, 10, 127} ==> !IsBlocked(V4(x))
    ensures x / 0x10_0000 == 172 * 16 + 1 || x / 0x1_0000 == 192 * 256 + 168 ==> !IsBlocked(V4(x))
    ensures x / 0x40_0000 == 100 * 4 + 1 ==> (IsBlocked(V4(x)) <==> x == Octets(100, 100, 100, 200))
    ensures y / 0x200_0000_0000_0000_0000_0000_0000_0000 == 0x7e ==> (IsBlocked(V6(y)) <==> MetadataV6(y))
    ensures !IsBlocked(V6(1))
  {}

  // ---------------------------------------------------------------------------------------------
  // Resolve once, drop what is blocked
  // ---------------------------------------------------------------------------------------------

  /** One getaddrinfo answer; None when its address text is not an IP address. */
  datatype Answer = Answer(addr: Option<Address>, port: nat)

  predicate Refused(a: Answer)
  {
    a.addr.None? || IsBlocked(a.addr.value)
  }

  function Kept<T>(xs: seq<T>, keep: T -> bool): (r: seq<T>)
    ensures |r| <= |xs|
  {
    if xs == [] then [] else Kept(xs[..|xs| - 1], keep) + (if keep(xs[|xs| - 1]) then [xs[|xs| - 1]] else [])
  }

  /** kept are the elements of xs at these positions, in order. */
  predicate StandsAt<T(==)>(kept: seq<T>, xs: seq<T>, at: seq<nat>)
  {
    && |at| == |kept|
    && (forall j, k :: 0 <= j < k < |at| ==> at[j] < at[k])
    && (forall k :: 0 <= k < |at| ==> at[k] < |xs| && kept[k] == xs[at[k]])
  }

  predicate Selects<T>(xs: seq<T>, keep: T -> bool, at: seq<nat>)
  {
    forall i: nat :: i < |xs| ==> (i in at <==> keep(xs[i]))
  }

  lemma OneMoreAt<T>(xs: seq<T>, keep: T -> bool, kept: seq<T>, at: seq<nat>, x: T)
    requires StandsAt(kept, xs, at) && Selects(xs, keep, at)
    ensures keep(x) ==> StandsAt(kept + [x], xs + [x], at + [|xs|]) && Selects(xs + [x], keep, at + [|xs|])
    ensures !keep(x) ==> StandsAt(kept, xs + [x], at) && Selects(xs + [x], keep, at)
  {
    assert forall i :: i in at ==> i < |xs|;
  }

  /** What is kept stands in the original order, and no element that passes is missing. */
  lemma {:induction false} KeptInOrder<T>(xs: seq<T>, keep: T -> bool) returns (at: seq<nat>)
    ensures StandsAt(Kept(xs, keep), xs, at) && Selects(xs, keep, at)
  {
    if xs == [] {
      at := [];
    } else {
      var rest, last := xs[..|xs| - 1], xs[|xs| - 1];
      at := KeptInOrder(rest, keep);
      OneMoreAt(rest, keep, Kept(rest, keep), at, last);
      assert rest + [last] == xs;
      if keep(last) { at := at + [|rest|]; } else { assert Kept(rest, keep) + [] == Kept(rest, keep); }
    }
  }

  function NotRefused(): Answer -> bool
  {
    a => !Refused(a)
  }

  function Allowed(infos: seq<Answer>): (r: seq<Answer>)
    ensures |r| <= |infos|
  {
    Kept(infos, NotRefused())
  }

  /** The allowed answers are the answers that are not refused, in the resolver's order. */
  lemma AllowedInOrder(infos: seq<Answer>) returns (at: seq<nat>)
    ensures StandsAt(Allowed(infos), infos, at)
    ensures forall i: nat :: i < |infos| ==> (i in at <==> !Refused(infos[i]))
  {
    at := KeptInOrder(infos, NotRefused());
    forall i: nat | i < |infos| ensures i in at <==> !Refused(infos[i]) {
      assert NotRefused()(infos[i]) <==> !Refused(infos[i]);
    }
  }

  lemma {:induction false} AllowedMeaning(infos: seq<Answer>)
    ensures forall a :: a in Allowed(infos) <==> a in infos && !Refused(a)
  {
    if infos != [] {
      AllowedMeaning(infos[..|infos| - 1]);
    }
  }

  /** A socket call's OSError; a TimeoutError is one of them. */
  datatype OsFailure = TimedOut | OtherOsError(code: int)

  /** `_BlockedAtConnect`, `socket.gaierror`, and what the connect loop raises. */
  datatype Error = BlockedAtConnect | ResolverFailed | SocketError(failure: OsFailure) | EmptyList

  /** What getaddrinfo does. */
  datatype Resolution = Answers(infos: seq<Answer>) | GaiError

  lemma NothingAllowed(infos: seq<Answer>)
    ensures Allowed(infos) == [] <==> forall a :: a in infos ==> Refused(a)
  {
    var allowed := Allowed(infos);
    AllowedMeaning(infos);
    if allowed != [] {
      assert allowed[0] in allowed;
    } else {
      forall a | a in infos ensures Refused(a) { assert a !in allowed; }
    }
  }

  /** `_resolve_checked`: the allowed answers in order; a refusal exactly when there are answers and none is allowed. */
  method ResolveChecked(resolution: Resolution) returns (r: Result<seq<Answer>, Error>)
    ensures r == match resolution
                 case GaiError => Failure(ResolverFailed)
                 case Answers(infos) =>
                   if infos != [] && Allowed(infos) == [] then Failure(BlockedAtConnect) else Success(Allowed(infos))
  {
    if resolution.GaiError? {
      return Failure(ResolverFailed);
    }
    var infos := resolution.infos;
    var allowed: seq<Answer> := [];
    var blocked: seq<Answer> := [];
    for i := 0 to |infos|
      invariant allowed == Allowed(infos[..i])
      invariant |allowed| + |blocked| == i
    {
      assert infos[..i + 1][..i] == infos[..i];
      if Refused(infos[i]) {
        blocked := blocked + [infos[i]];
      } else {
        allowed := allowed + [infos[i]];
      }
    }
    assert infos[..|infos|] == infos;
    if blocked != [] && allowed == [] {
      return Failure(BlockedAtConnect);
    }
    r := Success(allowed);
  }

  // ---------------------------------------------------------------------------------------------
  // Connect to the first that answers
  // ---------------------------------------------------------------------------------------------

  /** What the operating system does with one attempt. */
  datatype Outcome =
    | CannotCreate(failure: OsFailure)
    | CannotPrepare(failure: OsFailure)
    | CannotConnect(failure: OsFailure)
    | Connects

  /** What `_new_conn` raises: the refusal itself, or urllib3's errors. */
  datatype ConnectionError = BadLabel | Blocked | NameResolutionError | ConnectTimeoutError | NewConnectionError

  function AsConnectionError(e: Error): ConnectionError
  {
    match e
    case BlockedAtConnect => Blocked
    case ResolverFailed => NameResolutionError
    case SocketError(TimedOut) => ConnectTimeoutError
    case SocketError(_) => NewConnectionError
    case EmptyList => NewConnectionError
  }

  /** The sockets of this process: how many were created, which are open, and which answers were contacted, in order. */
  class Network {
    var created: nat
    var open: set<nat>
    var contacted: seq<Answer>

    constructor ()
      ensures created == 0 && open == {} && contacted == []
    {
      created := 0;
      open := {};
      contacted := [];
    }

    ghost predicate Valid()
      reads this
    {
      forall s :: s in open ==> s < created
    }

    /**
     `_connect_to_checked`. Attempt k meets `outcomes[k]`. The first answer that connects wins; the answers before it
     and no others were contacted, once each and in order; every socket but the winner's is closed again.
     */
    method ConnectToChecked(infos: seq<Answer>, outcomes: seq<Outcome>) returns (r: Result<nat, Error>)
      requires Valid() && |outcomes| >= |infos|
      modifies this
      ensures Valid()
      ensures r.Success? <==> exists k :: FirstSuccess(outcomes, |infos|, k)
      ensures forall k :: FirstSuccess(outcomes, |infos|, k) ==>
                contacted == old(contacted) + Contacted(infos, outcomes, k + 1)
      ensures r.Success? ==> r.value >= old(created) && open == old(open) + {r.value}
      ensures old(created) <= created <= old(created) + |infos|
      ensures r.Failure? ==>
                && open == old(open) && contacted == old(contacted) + Contacted(infos, outcomes, |infos|)
                && r.error == (if infos == [] then EmptyList else SocketError(FailureOf(outcomes[|infos| - 1])))
    {
      var err: Option<OsFailure> := None;
      for k := 0 to |infos|
        invariant Valid() && open == old(open) && old(created) <= created <= old(created) + k
        invariant forall j :: 0 <= j < k ==> outcomes[j] != Connects
        invariant contacted == old(contacted) + Contacted(infos, outcomes, k)
        invariant err == if k == 0 then None else Some(FailureOf(outcomes[k - 1]))
      {
        if outcomes[k].CannotCreate? {
          err := Some(outcomes[k].failure);
        } else {
          var sock := created;
          created := created + 1;
          open := open + {sock};
          if outcomes[k].CannotPrepare? {
            err := Some(outcomes[k].failure);
            open := open - {sock};
          } else {
            contacted := contacted + [infos[k]];
            if outcomes[k] == Connects {
              assert FirstSuccess(outcomes, |infos|, k);
              return Success(sock);
            }
            err := Some(outcomes[k].failure);
            open := open - {sock};
          }
        }
      }
      if err.Some? {
        return Failure(SocketError(err.value));
      }
      r := Failure(EmptyList);
    }

    /**
     `_new_conn`: check every answer, then connect to what is left, and report failures as urllib3 does. A host whose
     label cannot be encoded is never looked up.
     */
    method NewConn(hostEncodes: bool, resolution: Resolution, outcomes: seq<Outcome>)
      returns (r: Result<nat, ConnectionError>)
      requires Valid() && (resolution.Answers? ==> |outcomes| >= |resolution.infos|)
      modifies this
      ensures Valid()
      ensures !hostEncodes || resolution.GaiError? || AllRefused(resolution.infos) ==>
                && contacted == old(contacted) && created == old(created) && open == old(open)
                && r == Failure(if !hostEncodes then BadLabel
                                else if resolution.GaiError? then NameResolutionError else Blocked)
      ensures hostEncodes && resolution.Answers? && !AllRefused(resolution.infos) ==>
                var allowed := Allowed(resolution.infos);
                && (r.Success? <==> exists k :: FirstSuccess(outcomes, |allowed|, k))
                && (forall k :: FirstSuccess(outcomes, |allowed|, k) ==>
                      contacted == old(contacted) + Contacted(allowed, outcomes, k + 1))
                && (r.Success? ==> r.value >= old(created) && open == old(open) + {r.value})
                && (r.Failure? ==>
                      && contacted == old(contacted) + Contacted(allowed, outcomes, |allowed|) && open == old(open)
                      && r.error == if allowed != [] && FailureOf(outcomes[|allowed| - 1]).TimedOut?
                                    then ConnectTimeoutError else NewConnectionError)
    {
      if !hostEncodes {
        return Failure(BadLabel);
      }
      var checked := ResolveChecked(resolution);
      if resolution.Answers? {
        NothingAllowed(resolution.infos);
      }
      if checked.Failure? {
        return Failure(AsConnectionError(checked.error));
      }
      var connected := ConnectToChecked(checked.value, outcomes);
      if connected.Failure? {
        return Failure(AsConnectionError(connected.error));
      }
      r := Success(connected.value);
    }
  }

  /** There are answers, and each of them is blocked. */
  predicate AllRefused(infos: seq<Answer>)
  {
    infos != [] && forall a :: a in infos ==> Refused(a)
  }

  function FailureOf(o: Outcome): OsFailure
  {
    if o == Connects then OtherOsError(0) else o.failure
  }

  /** Attempt k is the first of n to connect. */
  predicate FirstSuccess(outcomes: seq<Outcome>, n: nat, k: int)
    requires n <= |outcomes|
  {
    0 <= k < n && outcomes[k] == Connects && forall j :: 0 <= j < k ==> outcomes[j] != Connects
  }

  /** The answers among the first k that a connection attempt actually reached. */
  function Contacted(infos: seq<Answer>, outcomes: seq<Outcome>, k: nat): seq<Answer>
    requires k <= |infos| <= |outcomes|
  {
    if k == 0 then []
    else (
      var reached := outcomes[k - 1].CannotConnect? || outcomes[k - 1].Connects?;
      Contacted(infos, outcomes, k - 1) + (if reached then [infos[k - 1]] else [])
    )
  }

  /** No connection is ever tried to an address that is refused, or that the resolver did not return. */
  lemma {:induction false} OnlyAllowedContacted(infos: seq<Answer>, outcomes: seq<Outcome>, k: nat)
    requires k <= |Allowed(infos)| <= |outcomes|
    ensures forall a :: a in Contacted(Allowed(infos), outcomes, k) ==> a in infos && !Refused(a)
    ensures |Contacted(Allowed(infos), outcomes, k)| <= k
  {
    AllowedMeaning(infos);
    if k > 0 {
      OnlyAllowedContacted(infos, outcomes, k - 1);
      assert Allowed(infos)[k - 1] in Allowed(infos);
    }
  }
}
