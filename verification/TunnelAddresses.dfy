/**
 Which tunnel addresses the Hub hands out: the checks of its own network settings, the search
 for the least free host, and the checks of a restored backup. Addresses are integers; `Bad`
 stands for text that is no address.
 */
module TunnelAddresses {
  import opened Powers

  datatype Address = Bad | V4(value: int) | V6(value: int)
  datatype Network = BadNetwork | V4Network(address: int, prefix: nat) | V6Network

  datatype Error =
    | InvalidCidr | NotIpv4Cidr | ZeroPrefix | TooBroad
    | InvalidHub | NotIpv4Hub | HubOutside | HubIsNetwork | HubIsBroadcast
    | StoredInvalid | StoredNotIpv4 | StoredOutside | StoredNotUsable | NoneAvailable
    | RestoredInvalid | RestoredNotIpv4 | RestoredOutside | RestoredNotUsable | RestoredTwice

  datatype Result<T> = Ok(value: T) | Err(error: Error)

  /** A network that starts at `base` and has `size` addresses, and the Hub's address in it. */
  datatype HubNetwork = HubNetwork(base: int, size: int, hub: int)

  /** What the parser lets through: 32-bit addresses, prefixes up to 32. */
  predicate IsParsed(cidr: Network) {
    cidr.V4Network? ==> 0 <= cidr.address < Pow2(32) && cidr.prefix <= 32
  }

  predicate Inside(net: HubNetwork, ip: int) {
    net.base <= ip < net.base + net.size
  }

  function Broadcast(net: HubNetwork): int {
    net.base + net.size - 1
  }

  /** `validate_hub_wireguard_config` */
  function Validate(cidr: Network, hub: Address, allowBroad: bool): Result<HubNetwork> {
    match cidr
    case BadNetwork => Err(InvalidCidr)
    case V6Network => Err(NotIpv4Cidr)
    case V4Network(address, prefix) =>
      if prefix == 0 then Err(ZeroPrefix)
      else if prefix < 12 && !allowBroad then Err(TooBroad)
      else if hub.Bad? then Err(InvalidHub)
      else if hub.V6? then Err(NotIpv4Hub)
      else
        var size := if prefix <= 32 then Pow2(32 - prefix) else 1;
        var net := HubNetwork(address - address % size, size, hub.value);
        if !Inside(net, hub.value) then Err(HubOutside)
        else if hub.value == net.base then Err(HubIsNetwork)
        else if hub.value == Broadcast(net) then Err(HubIsBroadcast)
        else Ok(net)
  }

  /** A network that passed: aligned, at least four addresses, the Hub on a host address. */
  predicate Sound(net: HubNetwork) {
    net.size >= 4 && net.base % net.size == 0 && net.base < net.hub < Broadcast(net)
  }

  lemma Aligned(address: int, size: int)
    requires size > 0
    ensures (address - address % size) % size == 0 && address - address % size <= address < address - address % size + size
  {
    assert address - address % size == address / size * size;
    MultipleOf(address / size, size);
  }

  lemma MultipleOf(k: int, size: int)
    requires size > 0
    ensures (k * size) % size == 0
  {
    var q, r := k * size / size, (k * size) % size;
    assert (k - q) * size == r;
    if k - q >= 1 { MulAtLeast(k - q, size); } else if k - q <= -1 { MulAtLeast(q - k, size); }
  }

  lemma MulAtLeast(k: int, size: int)
    requires k >= 1 && size > 0
    ensures k * size >= size
  {
  }

  /** Quotient and remainder are the only ones that fit. */
  lemma DivUnique(n: int, q: int, k: int, size: int)
    requires 0 <= k < size && n == q * size + k
    ensures n / size == q && n % size == k
  {
    var q', k' := n / size, n % size;
    assert (q - q') * size == k' - k && (q' - q) * size == k - k';
    if q - q' >= 1 {
      MulAtLeast(q - q', size);
    } else if q' - q >= 1 {
      MulAtLeast(q' - q, size);
    }
  }

  /** The aligned block around `address` is what has the same quotient, and the remainder is the
      place in it. */
  lemma InsideIsSameBlock(address: int, ip: int, size: int)
    requires size > 0
    ensures var base := address - address % size;
      && (base <= ip < base + size <==> ip / size == address / size)
      && (base <= ip < base + size ==> ip % size == ip - base)
  {
    var q := address / size;
    var base := q * size;
    assert base == address - address % size && ip == ip / size * size + ip % size;
    if base <= ip < base + size {
      DivUnique(ip, q, ip - base, size);
    }
  }

  /** Settings are accepted if and only if they are an IPv4 network from /1 to /30, no wider than
      /12 unless that is allowed, and an address of it that is neither its first nor its last;
      /31 and /32 are never accepted, because every address of theirs is one of the two. */
  lemma ValidatedIsSound(cidr: Network, hub: Address, allowBroad: bool)
    requires IsParsed(cidr)
    ensures var r := Validate(cidr, hub, allowBroad);
      && (r.Ok? ==> Sound(r.value) && Inside(r.value, cidr.address) && r.value.hub == hub.value && r.value.size == Pow2(32 - cidr.prefix))
      && (r.Ok? <==>
            && cidr.V4Network? && hub.V4? && 1 <= cidr.prefix <= 30 && (cidr.prefix >= 12 || allowBroad)
            && var size := Pow2(32 - cidr.prefix);
            hub.value / size == cidr.address / size && hub.value % size != 0 && hub.value % size != size - 1)
  {
    if cidr.V4Network? && hub.V4? {
      var size := Pow2(32 - cidr.prefix);
      Aligned(cidr.address, size);
      InsideIsSameBlock(cidr.address, hub.value, size);
      assert Pow2(0) == 1 && Pow2(1) == 2;
      if cidr.prefix <= 30 {
        Pow2Grows(2, 32 - cidr.prefix);
      }
    }
  }

  /** Every refusal of the settings says why. */
  lemma RefusalsSayWhy(cidr: Network, hub: Address, allowBroad: bool)
    requires IsParsed(cidr)
    ensures var r := Validate(cidr, hub, allowBroad);
      && (r == Err(InvalidCidr) <==> cidr == BadNetwork) && (r == Err(NotIpv4Cidr) <==> cidr == V6Network)
      && (cidr.V4Network? ==>
            && (r == Err(ZeroPrefix) <==> cidr.prefix == 0) && (r == Err(TooBroad) <==> 1 <= cidr.prefix < 12 && !allowBroad)
            && (cidr.prefix >= 12 || (cidr.prefix >= 1 && allowBroad) ==>
                  && (r == Err(InvalidHub) <==> hub == Bad) && (r == Err(NotIpv4Hub) <==> hub.V6?)
                  && (hub.V4? ==>
                        var size := Pow2(32 - cidr.prefix);
                        && (r == Err(HubOutside) <==> hub.value / size != cidr.address / size)
                        && (r == Err(HubIsNetwork) <==> hub.value / size == cidr.address / size && hub.value % size == 0))))
  {
    if cidr.V4Network? && hub.V4? {
      Aligned(cidr.address, Pow2(32 - cidr.prefix));
      InsideIsSameBlock(cidr.address, hub.value, Pow2(32 - cidr.prefix));
    }
  }

  // ---------- Allocation ----------

  predicate IsHost(net: HubNetwork, ip: int) {
    net.base < ip < Broadcast(net)
  }

  /** The check of one stored row. */
  function CheckStored(net: HubNetwork, row: Address): Result<int> {
    match row
    case Bad => Err(StoredInvalid)
    case V6(_) => Err(StoredNotIpv4)
    case V4(ip) =>
      if !Inside(net, ip) then Err(StoredOutside)
      else if ip == net.base || ip == Broadcast(net) then Err(StoredNotUsable)
      else Ok(ip)
  }

  /** The least address of a range that is not in use. */
  function LeastFree(used: set<int>, low: int, high: int): Result<int>
    decreases high - low
  {
    if low >= high then Err(NoneAvailable)
    else if low !in used then Ok(low)
    else LeastFree(used, low + 1, high)
  }

  /** The first row that does not pass, or the addresses of all of them. */
  function UsedBy(net: HubNetwork, rows: seq<Address>): Result<set<int>> {
    if rows == [] then Ok({net.hub})
    else
      match UsedBy(net, rows[..|rows|-1])
      case Err(error) => Err(error)
      case Ok(used) =>
        match CheckStored(net, rows[|rows|-1])
        case Err(error) => Err(error)
        case Ok(ip) => Ok(used + {ip})
  }

  /** `next_tunnel_ip` */
  function NextTunnelIp(net: HubNetwork, rows: seq<Address>): Result<int> {
    match UsedBy(net, rows)
    case Err(error) => Err(error)
    case Ok(used) => LeastFree(used, net.base + 1, Broadcast(net))
  }

  lemma {:induction false} LeastFreeIs(used: set<int>, low: int, high: int)
    ensures match LeastFree(used, low, high)
      case Ok(ip) => low <= ip < high && ip !in used && forall other :: low <= other < ip ==> other in used
      case Err(error) => error == NoneAvailable && forall other :: low <= other < high ==> other in used
    decreases high - low
  {
    if low < high && low in used {
      LeastFreeIs(used, low + 1, high);
    }
  }

  predicate IsTaken(net: HubNetwork, rows: seq<Address>, ip: int) {
    ip == net.hub || V4(ip) in rows
  }

  /** When every row passed, their addresses and the Hub's are in use. */
  lemma {:induction false} UsedByAll(net: HubNetwork, rows: seq<Address>)
    requires UsedBy(net, rows).Ok?
    ensures forall i :: 0 <= i < |rows| ==> CheckStored(net, rows[i]).Ok?
    ensures forall ip :: ip in UsedBy(net, rows).value <==> IsTaken(net, rows, ip)
  {
    if rows != [] {
      var front, last := rows[..|rows|-1], rows[|rows|-1];
      UsedByAll(net, front);
      assert rows == front + [last];
      forall i | 0 <= i < |rows| ensures CheckStored(net, rows[i]).Ok? {
        assert i < |front| ==> rows[i] == front[i];
      }
    }
  }

  /** Otherwise the complaint is about one of them. */
  lemma {:induction false} UsedByNone(net: HubNetwork, rows: seq<Address>) returns (i: nat)
    requires UsedBy(net, rows).Err?
    ensures i < |rows| && CheckStored(net, rows[i]) == Err(UsedBy(net, rows).error)
  {
    i := |rows| - 1;
    if UsedBy(net, rows[..|rows|-1]).Err? {
      i := UsedByNone(net, rows[..|rows|-1]);
    }
  }

  /** Allocation picks the least host that neither the Hub nor any stored row has; it reports
      exhaustion exactly when all rows pass and no host is free; any other report is the complaint
      about some stored row. */
  lemma AllocationIsLeastFree(net: HubNetwork, rows: seq<Address>)
    ensures match NextTunnelIp(net, rows)
      case Ok(ip) => IsHost(net, ip) && !IsTaken(net, rows, ip) && forall other :: IsHost(net, other) && other < ip ==> IsTaken(net, rows, other)
      case Err(error) => error == NoneAvailable || exists i :: 0 <= i < |rows| && CheckStored(net, rows[i]) == Err(error)
    ensures NextTunnelIp(net, rows) == Err(NoneAvailable) <==>
      (forall i :: 0 <= i < |rows| ==> CheckStored(net, rows[i]).Ok?) && forall ip :: IsHost(net, ip) ==> IsTaken(net, rows, ip)
    ensures NextTunnelIp(net, rows).Ok? || NextTunnelIp(net, rows) == Err(NoneAvailable) <==> forall i :: 0 <= i < |rows| ==> CheckStored(net, rows[i]).Ok?
  {
    if UsedBy(net, rows).Ok? {
      UsedByAll(net, rows);
      LeastFreeIs(UsedBy(net, rows).value, net.base + 1, Broadcast(net));
    } else {
      var i := UsedByNone(net, rows);
    }
  }

  function Range(low: int, high: int): (r: set<int>)
    requires low <= high
    ensures |r| == high - low && forall i :: i in r <==> low <= i < high
    decreases high - low
  {
    if low == high then {} else Range(low, high - 1) + {high - 1}
  }

  lemma {:induction false} FewTaken(rows: seq<Address>, hosts: set<int>)
    requires forall ip :: ip in hosts ==> V4(ip) in rows
    ensures |hosts| <= |rows|
  {
    if rows != [] {
      var front, last := rows[..|rows|-1], rows[|rows|-1];
      assert rows == front + [last];
      if last.V4? && last.value in hosts {
        FewTaken(front, hosts - {last.value});
      } else {
        FewTaken(front, hosts);
      }
    } else {
      forall ip ensures ip !in hosts {
        assert V4(ip) !in rows;
      }
      assert hosts == {};
    }
  }

  /** The pool runs out only when every host but the Hub's belongs to a device. */
  lemma ExhaustionNeedsDevices(net: HubNetwork, rows: seq<Address>)
    requires Sound(net) && NextTunnelIp(net, rows) == Err(NoneAvailable)
    ensures |rows| >= net.size - 3
  {
    AllocationIsLeastFree(net, rows);
    var hosts := Range(net.base + 1, Broadcast(net));
    assert |hosts - {net.hub}| == |hosts| - 1;
    forall ip | ip in hosts - {net.hub} ensures V4(ip) in rows {
      assert IsHost(net, ip) && IsTaken(net, rows, ip);
    }
    FewTaken(rows, hosts - {net.hub});
  }

  method NextFreeTunnelIp(net: HubNetwork, rows: seq<Address>) returns (r: Result<int>)
    ensures r == NextTunnelIp(net, rows)
  {
    var used := {net.hub};
    for i := 0 to |rows|
      invariant UsedBy(net, rows[..i]) == Ok(used)
    {
      assert rows[..i+1][..i] == rows[..i];
      var row := rows[i];
      if row.Bad? {
        ErrorStays(net, rows, i + 1);
        return Err(StoredInvalid);
      }
      if row.V6? {
        ErrorStays(net, rows, i + 1);
        return Err(StoredNotIpv4);
      }
      if !Inside(net, row.value) {
        ErrorStays(net, rows, i + 1);
        return Err(StoredOutside);
      }
      if row.value in {net.base, Broadcast(net)} {
        ErrorStays(net, rows, i + 1);
        return Err(StoredNotUsable);
      }
      used := used + {row.value};
    }
    assert rows[..|rows|] == rows;
    var ip := net.base + 1;
    while ip < Broadcast(net)
      invariant LeastFree(used, ip, Broadcast(net)) == NextTunnelIp(net, rows)
    {
      if ip !in used {
        return Ok(ip);
      }
      ip := ip + 1;
    }
    return Err(NoneAvailable);
  }

  lemma {:induction false} ErrorStays(net: HubNetwork, rows: seq<Address>, i: nat)
    requires i <= |rows| && UsedBy(net, rows[..i]).Err?
    ensures UsedBy(net, rows) == UsedBy(net, rows[..i])
  {
    if i < |rows| {
      assert rows[..|rows|-1][..i] == rows[..i];
      ErrorStays(net, rows[..|rows|-1], i);
    } else {
      assert rows[..i] == rows;
    }
  }

  // ---------- Restore ----------

  function CheckRestored(net: HubNetwork, row: Address): Result<int> {
    match row
    case Bad => Err(RestoredInvalid)
    case V6(_) => Err(RestoredNotIpv4)
    case V4(ip) =>
      if !Inside(net, ip) then Err(RestoredOutside)
      else if ip == net.hub || ip == net.base || ip == Broadcast(net) then Err(RestoredNotUsable)
      else Ok(ip)
  }

  /** Every refusal of a restored address says why. */
  lemma RestoreRefusalsSayWhy(net: HubNetwork, row: Address)
    ensures var r := CheckRestored(net, row);
      && (r == Err(RestoredInvalid) <==> row == Bad) && (r == Err(RestoredNotIpv4) <==> row.V6?)
      && (row.V4? ==>
            && (r == Err(RestoredOutside) <==> row.value < net.base || row.value >= net.base + net.size)
            && (r.Ok? <==> net.base < row.value < net.base + net.size - 1 && row.value != net.hub) && (r.Ok? ==> r.value == row.value))
  {
  }

  /** The addresses of a backup's devices, each seen once. */
  function RestoredIps(net: HubNetwork, rows: seq<Address>): Result<seq<int>> {
    if rows == [] then Ok([])
    else
      match RestoredIps(net, rows[..|rows|-1])
      case Err(error) => Err(error)
      case Ok(ips) =>
        match CheckRestored(net, rows[|rows|-1])
        case Err(error) => Err(error)
        case Ok(ip) => if ip in ips then Err(RestoredTwice) else Ok(ips + [ip])
  }

  /** Device addresses as they ought to be: distinct hosts, none of them the Hub's. */
  ghost predicate Distinct(net: HubNetwork, ips: seq<int>) {
    && (forall i :: 0 <= i < |ips| ==> IsHost(net, ips[i]) && ips[i] != net.hub)
    && (forall i, j :: 0 <= i < j < |ips| ==> ips[i] != ips[j])
  }

  function Stored(ips: seq<int>): (rows: seq<Address>)
    ensures |rows| == |ips| && forall i :: 0 <= i < |ips| ==> rows[i] == V4(ips[i])
  {
    if ips == [] then [] else [V4(ips[0])] + Stored(ips[1..])
  }

  /** Rows that are distinct hosts other than the Hub. */
  ghost predicate Restorable(net: HubNetwork, rows: seq<Address>) {
    && (forall i :: 0 <= i < |rows| ==> rows[i].V4? && IsHost(net, rows[i].value) && rows[i].value != net.hub)
    && (forall i, j :: 0 <= i < j < |rows| ==> rows[i] != rows[j])
  }

  /** A backup's addresses are accepted exactly when they are distinct hosts other than the Hub,
      and they are restored as they are. */
  lemma {:induction false} RestoreKeepsDistinct(net: HubNetwork, rows: seq<Address>)
    ensures RestoredIps(net, rows).Ok? <==> Restorable(net, rows)
    ensures RestoredIps(net, rows).Ok? ==> Distinct(net, RestoredIps(net, rows).value) && rows == Stored(RestoredIps(net, rows).value)
  {
    if rows != [] {
      var front, last := rows[..|rows|-1], rows[|rows|-1];
      RestoreKeepsDistinct(net, front);
      if RestoredIps(net, front).Ok? {
        RestorableOneMore(net, rows, RestoredIps(net, front).value);
        if CheckRestored(net, last).Ok? && last.value !in RestoredIps(net, front).value {
          RestoreOneMore(net, rows, RestoredIps(net, front).value);
        }
      } else {
        assert Restorable(net, rows) ==> Restorable(net, front);
      }
    }
  }

  lemma RestorableOneMore(net: HubNetwork, rows: seq<Address>, ips: seq<int>)
    requires rows != [] && rows[..|rows|-1] == Stored(ips) && Restorable(net, rows[..|rows|-1])
    ensures var last := rows[|rows|-1]; CheckRestored(net, last).Ok? && last.value !in ips <==> Restorable(net, rows)
  {
    var front, last := rows[..|rows|-1], rows[|rows|-1];
    assert forall i :: 0 <= i < |front| ==> rows[i] == front[i] == V4(ips[i]);
    if CheckRestored(net, last).Ok? {
      if last.value in ips {
        var i :| 0 <= i < |ips| && ips[i] == last.value;
        assert rows[i] == rows[|rows|-1];
      }
    }
  }

  lemma RestoreOneMore(net: HubNetwork, rows: seq<Address>, ips: seq<int>)
    requires rows != [] && Distinct(net, ips) && rows[..|rows|-1] == Stored(ips)
    requires var last := rows[|rows|-1]; CheckRestored(net, last).Ok? && last.value !in ips
    ensures Distinct(net, ips + [rows[|rows|-1].value]) && rows == Stored(ips + [rows[|rows|-1].value])
  {
    assert forall i :: 0 <= i < |rows| - 1 ==> rows[i] == rows[..|rows|-1][i] == V4(ips[i]);
  }

  method ValidateRestoredIps(net: HubNetwork, rows: seq<Address>) returns (r: Result<seq<int>>)
    ensures r == RestoredIps(net, rows)
  {
    var ips: seq<int> := [];
    var seen: set<int> := {};
    for i := 0 to |rows|
      invariant RestoredIps(net, rows[..i]) == Ok(ips)
      invariant forall ip :: ip in seen <==> ip in ips
    {
      assert rows[..i+1][..i] == rows[..i];
      var checked := CheckRestored(net, rows[i]);
      if checked.Err? {
        RestoreErrorStays(net, rows, i + 1);
        return Err(checked.error);
      }
      if checked.value in seen {
        RestoreErrorStays(net, rows, i + 1);
        return Err(RestoredTwice);
      }
      seen := seen + {checked.value};
      ips := ips + [checked.value];
    }
    assert rows[..|rows|] == rows;
    return Ok(ips);
  }

  lemma {:induction false} RestoreErrorStays(net: HubNetwork, rows: seq<Address>, i: nat)
    requires i <= |rows| && RestoredIps(net, rows[..i]).Err?
    ensures RestoredIps(net, rows) == RestoredIps(net, rows[..i])
  {
    if i < |rows| {
      assert rows[..|rows|-1][..i] == rows[..i];
      RestoreErrorStays(net, rows[..|rows|-1], i);
    } else {
      assert rows[..i] == rows;
    }
  }

  // ---------- Runs ----------

  /** What changes the set of devices: a completed enrollment, a deletion, a restored backup. */
  datatype Step = Enroll | Delete(i: nat) | Restore(rows: seq<Address>)

  function Next(net: HubNetwork, ips: seq<int>, step: Step): seq<int> {
    match step
    case Enroll =>
      (match NextTunnelIp(net, Stored(ips)) case Ok(ip) => ips + [ip] case Err(_) => ips)
    case Delete(i) => if i < |ips| then ips[..i] + ips[i+1..] else ips
    case Restore(rows) =>
      (match RestoredIps(net, rows) case Ok(restored) => restored case Err(_) => ips)
  }

  function Exec(net: HubNetwork, steps: seq<Step>): seq<int> {
    if steps == [] then [] else Next(net, Exec(net, steps[..|steps|-1]), steps[|steps|-1])
  }

  lemma {:induction false} RunStaysDistinct(net: HubNetwork, steps: seq<Step>)
    requires Sound(net)
    ensures Distinct(net, Exec(net, steps))
  {
    if steps != [] {
      RunStaysDistinct(net, steps[..|steps|-1]);
      NextKeeps(net, Exec(net, steps[..|steps|-1]), steps[|steps|-1]);
    }
  }

  /** Enrollments, deletions and restores keep every device on a host address of its own, so the
      allocator never stumbles over a stored row: it finds an address, or the pool is full. */
  lemma AddressesStayDistinct(net: HubNetwork, steps: seq<Step>)
    requires Sound(net)
    ensures var ips := Exec(net, steps);
      && (forall i :: 0 <= i < |ips| ==> net.base < ips[i] < net.base + net.size - 1 && ips[i] != net.hub)
      && (forall i, j :: 0 <= i < j < |ips| ==> ips[i] != ips[j])
      && (NextTunnelIp(net, Stored(ips)).Ok? || NextTunnelIp(net, Stored(ips)) == Err(NoneAvailable))
  {
    RunStaysDistinct(net, steps);
    AllocatesOnDistinct(net, Exec(net, steps));
  }

  lemma AllocatesOnDistinct(net: HubNetwork, ips: seq<int>)
    requires Distinct(net, ips)
    ensures NextTunnelIp(net, Stored(ips)).Ok? || NextTunnelIp(net, Stored(ips)) == Err(NoneAvailable)
  {
    AllocationIsLeastFree(net, Stored(ips));
    forall i | 0 <= i < |ips| ensures CheckStored(net, Stored(ips)[i]).Ok? {
    }
  }

  lemma NextKeeps(net: HubNetwork, ips: seq<int>, step: Step)
    requires Sound(net) && Distinct(net, ips)
    ensures Distinct(net, Next(net, ips, step))
  {
    match step
    case Enroll =>
      AllocationIsLeastFree(net, Stored(ips));
      if NextTunnelIp(net, Stored(ips)).Ok? {
        var ip := NextTunnelIp(net, Stored(ips)).value;
        forall i | 0 <= i < |ips| ensures ips[i] != ip {
          assert Stored(ips)[i] == V4(ips[i]);
        }
      }
    case Delete(i) =>
    case Restore(rows) => RestoreKeepsDistinct(net, rows);
  }
}
