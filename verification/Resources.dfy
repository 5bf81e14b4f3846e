/** What a Kubernetes cluster has and what is still available (pkg/kubernetes/resources.go,
    internal/server/handlers/k8s/kubernetes.go), in Go's uint64 arithmetic. */
module Resources {
  import opened Wrappers
  import opened Integers
  import Convertors

  // ---------- uint64 ----------

  /** What is left of all when so much is taken. */
  function Left(all: nat, taken: nat): nat {
    if taken <= all then all - taken else 0
  }

  /** Subtracts in uint64 and puts zero for a result above the minuend: that test catches
      every underflow and nothing else. */
  method Subtract(all: nat, taken: nat) returns (left: nat)
    requires Fits(all) && Fits(taken)
    ensures left == Left(all, taken)
  {
    left := Wrap(all - taken);
    if taken > all {
      WrapOnce(all - taken, 1);
    }
    if left > all {
      left := 0;
    }
  }

  // ---------- amounts in text ----------

  /** How texts are read: as millicpus and as bytes. Everything below holds of any way to read
      them, and in particular of the converters. */
  datatype Texts = Texts(
    millis: string -> Result<nat, Convertors.Error>,
    bytes: string -> Result<nat, Convertors.Error>)

  function Converters(f: Convertors.Floats): Texts {
    Texts((s: string) => Convertors.StrToMilliCPU(f, s), (s: string) => Convertors.Denoted(f, s))
  }

  // ---------- nodes ----------

  datatype ClusterType = Unknown | Generic | OpenShift | GKE | Minikube | EKS

  /** Amounts of CPU and memory in text, as far as they are given. */
  datatype Quantities = Quantities(cpu: Option<string>, memory: Option<string>)

  /** A worker node: allocatable quantities by kind, and what is known of the machine. */
  datatype Node = Node(
    allocatable: Quantities,
    ephemeralStorage: Option<string>,
    instanceType: Option<string>,
    diskPressure: bool)

  datatype Error =
    | UnknownClusterType
    | NoInstanceType
    | BadInstanceType
    | NoStorageSize
    | BadQuantity(e: Convertors.Error)

  /** What one node, container or volume, or several, put in. */
  datatype Share = Share(cpu: nat, memory: nat, disk: nat, slots: nat) {
    function Plus(other: Share): Share {
      Share(cpu + other.cpu, memory + other.memory, disk + other.disk, slots + other.slots)
    }

    function Wrapped(): Share {
      Share(Wrap(cpu), Wrap(memory), Wrap(disk), Wrap(slots))
    }
  }

  const NOTHING := Share(0, 0, 0, 0)

  function LowerChar(c: char): char {
    if 'A' <= c <= 'Z' then c - 'A' + 'a' else c
  }

  function ToLower(s: string): string {
    if s == "" then "" else [LowerChar(s[0])] + ToLower(s[1..])
  }

  /** The letters from A to Z become those from a to z, and nothing else changes. */
  lemma {:induction false} LowerExactly(s: string)
    ensures |ToLower(s)| == |s|
    ensures forall i | 0 <= i < |s| ::
      ToLower(s)[i] as int == s[i] as int + if 65 <= s[i] as int <= 90 then 32 else 0
  {
    if s != "" {
      LowerExactly(s[1..]);
    }
  }

  const LIMITED := {"m5", "c5", "r5", "t3", "z1d"}

  /** What stands before the first dot of `type.size`. */
  function Family(name: string): (r: Option<string>)
    ensures r.Some? <==> '.' in name
    ensures r.Some? ==> r.value + "." <= name && '.' !in r.value
  {
    if name == "" then None
    else if name[0] == '.' then Some("")
    else
      match Family(name[1..])
      case None => None
      case Some(rest) => Some([name[0]] + rest)
  }

  lemma {:induction false} OneFamily(name: string, family: string)
    requires family + "." <= name && '.' !in family
    ensures Family(name) == Some(family)
  {
    assert name[|family|] == '.';
    if family != "" {
      assert family == [family[0]] + family[1..];
      assert name[0] == family[0];
      assert family[1..] + "." <= name[1..];
      OneFamily(name[1..], family[1..]);
    }
  }

  /** How many volumes an EKS node can take. */
  function GetEKSVolumeCount(node: Node): Result<nat, Error> {
    if node.diskPressure then Ok(0)
    else
      match node.instanceType
      case None => Err(NoInstanceType)
      case Some(name) =>
        match Family(ToLower(name))
        case None => Err(BadInstanceType)
        case Some(family) => Ok(if family in LIMITED then 25 else 39)
  }

  function Quantity(r: Result<nat, Convertors.Error>): Result<nat, Error> {
    match r
    case Ok(n) => Ok(n)
    case Err(e) => Err(BadQuantity(e))
  }

  function MilliCPUs(f: Texts, cpu: Option<string>): Result<nat, Error> {
    if cpu.None? then Ok(0) else Quantity(f.millis(cpu.value))
  }

  function Bytes(f: Texts, size: Option<string>): Result<nat, Error> {
    if size.None? then Ok(0) else Quantity(f.bytes(size.value))
  }

  /** What the node adds on a cluster of this type besides CPU and memory. */
  function DiskShare(f: Texts, kind: ClusterType, node: Node): Result<Share, Error> {
    match kind
    case Unknown => Err(UnknownClusterType)
    case Minikube =>
      if node.ephemeralStorage.None? then Err(NoStorageSize)
      else
        (match Bytes(f, node.ephemeralStorage)
         case Err(e) => Err(e)
         case Ok(n) => Ok(NOTHING.(disk := n)))
    case EKS =>
      (match GetEKSVolumeCount(node)
       case Err(e) => Err(e)
       case Ok(n) => Ok(NOTHING.(slots := n)))
    case _ => Ok(NOTHING)
  }

  /** getResources: what is not given counts as nothing. */
  function GetResources(f: Texts, q: Quantities): Result<Share, Error> {
    var cpu, memory := MilliCPUs(f, q.cpu), Bytes(f, q.memory);
    if cpu.Err? then Err(cpu.error)
    else if memory.Err? then Err(memory.error)
    else Ok(NOTHING.(cpu := cpu.value, memory := memory.value))
  }

  function ShareOf(f: Texts, kind: ClusterType, node: Node): Result<Share, Error> {
    var found, disk := GetResources(f, node.allocatable), DiskShare(f, kind, node);
    if found.Err? then found
    else if disk.Err? then disk
    else Ok(found.value.Plus(disk.value))
  }

  /** The exact sum over the items, or the error of the first bad one. */
  function Sum<T>(share: T -> Result<Share, Error>, items: seq<T>): Result<Share, Error> {
    if items == [] then Ok(NOTHING)
    else
      var init, last := items[..|items| - 1], items[|items| - 1];
      var total := Sum(share, init);
      if total.Err? then total
      else if share(last).Err? then share(last)
      else Ok(total.value.Plus(share(last).value))
  }

  lemma SumStep<T>(share: T -> Result<Share, Error>, items: seq<T>, last: T)
    ensures
      var total, next := Sum(share, items), share(last);
      && (total.Err? ==> Sum(share, items + [last]) == total)
      && (total.Ok? && next.Err? ==> Sum(share, items + [last]) == next)
      && (total.Ok? && next.Ok? ==> Sum(share, items + [last]) == Ok(total.value.Plus(next.value)))
  {
    assert (items + [last])[..|items|] == items;
  }

  lemma {:induction false} SumSoFar<T>(share: T -> Result<Share, Error>, items: seq<T>, more: seq<T>)
    requires Sum(share, items).Err?
    ensures Sum(share, items + more) == Sum(share, items)
    decreases |more|
  {
    if more == [] {
      assert items + more == items;
    } else {
      var init, last := more[..|more| - 1], more[|more| - 1];
      SumSoFar(share, items, init);
      SumStep(share, items + init, last);
      assert items + more == (items + init) + [last];
    }
  }

  function NodeShare(f: Texts, kind: ClusterType): Node -> Result<Share, Error> {
    (node: Node) => ShareOf(f, kind, node)
  }

  function TotalOf(f: Texts, kind: ClusterType, nodes: seq<Node>): Result<Share, Error> {
    Sum(NodeShare(f, kind), nodes)
  }

  /** What uint64 accumulators make of an exact sum. */
  predicate Accumulates(exact: Result<Share, Error>, r: Result<Share, Error>) {
    match exact
    case Err(e) => r == Err(e)
    case Ok(sum) => r == Ok(sum.Wrapped())
  }

  lemma WrappedPlus(a: Share, b: Share)
    ensures a.Wrapped().Plus(b).Wrapped() == a.Plus(b).Wrapped()
  {
    WrapSum(a.cpu, b.cpu);
    WrapSum(a.memory, b.memory);
    WrapSum(a.disk, b.disk);
    WrapSum(a.slots, b.slots);
  }

  lemma AccumulateOne<T>(share: T -> Result<Share, Error>, sum: Share, sofar: seq<T>, item: T)
    requires Accumulates(Sum(share, sofar), Ok(sum))
    ensures share(item).Err? ==> Sum(share, sofar + [item]) == share(item)
    ensures share(item).Ok? ==>
      Accumulates(Sum(share, sofar + [item]), Ok(sum.Plus(share(item).value).Wrapped()))
  {
    SumStep(share, sofar, item);
    if share(item).Ok? {
      WrappedPlus(Sum(share, sofar).value, share(item).value);
    }
  }

  /** The loop that goes on adding in uint64, after the items done so far, and stops at the
      first error. */
  method Accumulate<T>(share: T -> Result<Share, Error>, start: Share, items: seq<T>, ghost done: seq<T>)
    returns (r: Result<Share, Error>)
    requires Accumulates(Sum(share, done), Ok(start))
    ensures Accumulates(Sum(share, done + items), r)
  {
    var sum := start;
    ghost var sofar := done;
    for i := 0 to |items|
      invariant done + items == sofar + items[i..]
      invariant Accumulates(Sum(share, sofar), Ok(sum))
    {
      var next := share(items[i]);
      AccumulateOne(share, sum, sofar, items[i]);
      sofar := sofar + [items[i]];
      assert items[i..] == [items[i]] + items[i + 1..];
      assert done + items == sofar + items[i + 1..];
      if next.Err? {
        SumSoFar(share, sofar, items[i + 1..]);
        return next;
      }
      sum := sum.Plus(next.value).Wrapped();
    }
    assert done + items == sofar;
    r := Ok(sum);
  }

  method GetResourcesFromNodes(f: Texts, kind: ClusterType, nodes: seq<Node>)
    returns (r: Result<Share, Error>)
    ensures Accumulates(TotalOf(f, kind, nodes), r)
  {
    r := Accumulate(NodeShare(f, kind), NOTHING, nodes, []);
    assert [] + nodes == nodes;
  }

  // ---------- volumes ----------

  const MAX_VOLUME_SIZE := 16 * 1024 * 1024 * 1024 * 1024

  function VolumeShare(f: Texts): string -> Result<Share, Error> {
    (volume: string) =>
      match Bytes(f, Some(volume))
      case Err(e) => Err(e)
      case Ok(n) => Ok(NOTHING.(disk := n))
  }

  /** The exact sum of the volumes' sizes, or the error of the first bad one. */
  function SizeOf(f: Texts, volumes: seq<string>): Result<nat, Error> {
    match Sum(VolumeShare(f), volumes)
    case Err(e) => Err(e)
    case Ok(s) => Ok(s.disk)
  }

  method SumVolumesSize(f: Texts, volumes: seq<string>) returns (r: Result<nat, Error>)
    ensures
      match SizeOf(f, volumes)
      case Err(e) => r == Err(e)
      case Ok(total) => r == Ok(Wrap(total))
  {
    var sum := Accumulate(VolumeShare(f), NOTHING, volumes, []);
    assert [] + volumes == volumes;
    r := match sum case Err(e) => Err(e) case Ok(s) => Ok(s.disk);
  }

  // ---------- pods ----------

  datatype StateKey = Waiting | Running | Terminated

  /** A pod; each status of its init containers is the set of states it reports. */
  datatype Pod = Pod(
    running: bool,
    containers: seq<Quantities>,
    initContainers: seq<Quantities>,
    initContainerStatuses: seq<set<StateKey>>)

  /** The statuses are decoded one after the other into one map, which keeps the keys of
      those before: no harm, since the first hit ends the loop. */
  method IsContainerInState(statuses: seq<set<StateKey>>, state: StateKey) returns (found: bool)
    ensures found <==> exists s | s in statuses :: state in s
  {
    var containerState: set<StateKey> := {};
    for i := 0 to |statuses|
      invariant state !in containerState
      invariant forall s | s in statuses[..i] :: state !in s
    {
      assert statuses[..i + 1] == statuses[..i] + [statuses[i]];
      containerState := containerState + statuses[i];
      if state in containerState {
        return true;
      }
    }
    assert statuses[..|statuses|] == statuses;
    return false;
  }

  predicate SomeTerminated(pod: Pod) {
    exists s | s in pod.initContainerStatuses :: Terminated in s
  }

  /** The containers of a pod that count: those of a running pod, and all its init containers
      as long as no status reports a terminated one. */
  function CountedOf(pod: Pod): seq<Quantities> {
    if !pod.running then []
    else if SomeTerminated(pod) then pod.containers
    else pod.containers + pod.initContainers
  }

  function Counted(pods: seq<Pod>): seq<Quantities> {
    if pods == [] then [] else Counted(pods[..|pods| - 1]) + CountedOf(pods[|pods| - 1])
  }

  function ContainerShare(f: Texts): Quantities -> Result<Share, Error> {
    (q: Quantities) => GetResources(f, q)
  }

  function Requested(f: Texts, pods: seq<Pod>): Result<Share, Error> {
    Sum(ContainerShare(f), Counted(pods))
  }

  method CountedContainers(pod: Pod) returns (containers: seq<Quantities>)
    requires pod.running
    ensures containers == CountedOf(pod)
  {
    var nonTerminatedInitContainers := [];
    var inits := pod.initContainers;
    for i := 0 to |inits|
      invariant nonTerminatedInitContainers == if SomeTerminated(pod) then [] else inits[..i]
    {
      var terminated := IsContainerInState(pod.initContainerStatuses, Terminated);
      if !terminated {
        nonTerminatedInitContainers := nonTerminatedInitContainers + [inits[i]];
      }
    }
    assert inits[..|inits|] == inits;
    containers := pod.containers + nonTerminatedInitContainers;
  }

  lemma {:induction false} CountedSplit(pods: seq<Pod>, i: nat) returns (more: seq<Quantities>)
    requires i <= |pods|
    ensures Counted(pods) == Counted(pods[..i]) + more
    decreases |pods|
  {
    if i == |pods| {
      assert pods[..i] == pods;
      more := [];
    } else {
      var init := pods[..|pods| - 1];
      assert init[..i] == pods[..i];
      var rest := CountedSplit(init, i);
      more := rest + CountedOf(pods[|pods| - 1]);
    }
  }

  method GetConsumedCPUAndMemory(f: Texts, pods: seq<Pod>) returns (r: Result<Share, Error>)
    ensures Accumulates(Requested(f, pods), r)
  {
    var sum := NOTHING;
    for i := 0 to |pods|
      invariant Accumulates(Requested(f, pods[..i]), Ok(sum))
    {
      assert pods[..i + 1][..i] == pods[..i];
      if !pods[i].running {
        assert Counted(pods[..i + 1]) == Counted(pods[..i]);
        continue;
      }
      var containers := CountedContainers(pods[i]);
      var added := Accumulate(ContainerShare(f), sum, containers, Counted(pods[..i]));
      if added.Err? {
        ghost var more := CountedSplit(pods, i + 1);
        SumSoFar(ContainerShare(f), Counted(pods[..i + 1]), more);
        return added;
      }
      sum := added.value;
    }
    assert pods[..|pods|] == pods;
    r := Ok(sum);
  }

  // ---------- totals ----------

  lemma WrappedRoom(room: nat, size: nat)
    ensures Wrap(Wrap(room) + Wrap(size)) == Wrap(room + size)
  {
    WrapSum(room, Wrap(size));
    WrapSum(size, room);
  }

  /** The room on the volumes that so many slots leave free. */
  function FreeRoom(slots: nat, volumes: nat): nat {
    Left(slots, volumes) * MAX_VOLUME_SIZE
  }

  /** The disk of an EKS cluster, in exact arithmetic: room on the volumes it can still
      take, and what the present ones hold. */
  function DiskFor(f: Texts, slots: nat, volumes: seq<string>): Result<nat, Error> {
    match SizeOf(f, volumes)
    case Err(e) => Err(e)
    case Ok(size) => Ok(FreeRoom(slots, |volumes|) + size)
  }

  method AddVolumes(f: Texts, slots: nat, volumes: seq<string>) returns (r: Result<nat, Error>)
    requires Fits(slots) && Fits(|volumes|)
    ensures
      match DiskFor(f, slots, volumes)
      case Err(e) => r == Err(e)
      case Ok(disk) => r == Ok(Wrap(disk))
  {
    var free := Subtract(slots, |volumes|);
    var consumed := SumVolumesSize(f, volumes);
    if consumed.Err? {
      return consumed;
    }
    WrappedRoom(free * MAX_VOLUME_SIZE, SizeOf(f, volumes).value);
    r := Ok(Wrap(Wrap(free * MAX_VOLUME_SIZE) + consumed.value));
  }

  /** What a cluster has, in exact arithmetic. */
  function AllResources(f: Texts, kind: ClusterType, nodes: seq<Node>, volumes: seq<string>)
    : Result<Share, Error>
  {
    var total := TotalOf(f, kind, nodes);
    if total.Err? || kind != EKS then total
    else
      match DiskFor(f, total.value.slots, volumes)
      case Err(e) => Err(e)
      case Ok(disk) => Ok(total.value.(disk := disk))
  }

  /** A volume list is never as long as 2^64. */
  method GetAllClusterResources(f: Texts, kind: ClusterType, nodes: seq<Node>, volumes: seq<string>)
    returns (r: Result<Share, Error>)
    requires Fits(39 * |nodes|) && Fits(|volumes|)
    ensures Accumulates(AllResources(f, kind, nodes, volumes), r)
  {
    var found := GetResourcesFromNodes(f, kind, nodes);
    if found.Err? || kind != EKS {
      return found;
    }
    SlotsAtMost39(f, nodes);
    var disk := AddVolumes(f, found.value.slots, volumes);
    if disk.Err? {
      return Err(disk.error);
    }
    r := Ok(found.value.(disk := disk.value));
  }

  /** The node's type is written as one of the limited families, a dot, and a size. */
  ghost predicate Limited(node: Node) {
    node.instanceType.Some? && exists k | k in LIMITED :: k + "." <= ToLower(node.instanceType.value)
  }

  /** The healthy nodes, and the healthy ones of limited families. */
  ghost function Healthy(nodes: seq<Node>): nat {
    if nodes == [] then 0
    else Healthy(nodes[..|nodes| - 1]) + (if nodes[|nodes| - 1].diskPressure then 0 else 1)
  }

  ghost function HealthyLimited(nodes: seq<Node>): (n: nat)
    ensures n <= Healthy(nodes)
  {
    if nodes == [] then 0
    else
      var last := nodes[|nodes| - 1];
      HealthyLimited(nodes[..|nodes| - 1]) + (if !last.diskPressure && Limited(last) then 1 else 0)
  }

  ghost function SlotsOf(nodes: seq<Node>): nat {
    39 * (Healthy(nodes) - HealthyLimited(nodes)) + 25 * HealthyLimited(nodes)
  }

  lemma LimitedExactly(node: Node)
    requires !node.diskPressure && GetEKSVolumeCount(node).Ok?
    ensures GetEKSVolumeCount(node).value == if Limited(node) then 25 else 39
  {
    var name := ToLower(node.instanceType.value);
    var family := Family(name).value;
    if family in LIMITED {
      assert family + "." <= name;
    }
    if Limited(node) {
      var k :| k in LIMITED && k + "." <= name;
      OneFamily(name, k);
    }
  }

  lemma LastNodeSlots(f: Texts, nodes: seq<Node>)
    requires nodes != [] && TotalOf(f, EKS, nodes).Ok?
    ensures
      var init, last := TotalOf(f, EKS, nodes[..|nodes| - 1]), GetEKSVolumeCount(nodes[|nodes| - 1]);
      && init.Ok? && last.Ok?
      && TotalOf(f, EKS, nodes).value.slots == init.value.slots + last.value
  {
    var last := nodes[|nodes| - 1];
    assert ShareOf(f, EKS, last).Ok?;
    assert DiskShare(f, EKS, last).Ok?;
    assert ShareOf(f, EKS, last).value.slots == GetEKSVolumeCount(last).value;
  }

  /** Of an EKS cluster's nodes those under disk pressure have no slots, those of the limited
      families 25 and all others 39. */
  lemma {:induction false} SlotsCounted(f: Texts, nodes: seq<Node>)
    requires TotalOf(f, EKS, nodes).Ok?
    ensures TotalOf(f, EKS, nodes).value.slots == SlotsOf(nodes)
  {
    if nodes != [] {
      var last := nodes[|nodes| - 1];
      LastNodeSlots(f, nodes);
      SlotsCounted(f, nodes[..|nodes| - 1]);
      if !last.diskPressure {
        LimitedExactly(last);
      }
    }
  }

  lemma {:induction false} AtMostAllHealthy(nodes: seq<Node>)
    ensures Healthy(nodes) <= |nodes|
  {
    if nodes != [] {
      AtMostAllHealthy(nodes[..|nodes| - 1]);
    }
  }

  lemma SlotsAtMost39(f: Texts, nodes: seq<Node>)
    ensures TotalOf(f, EKS, nodes).Ok? ==> TotalOf(f, EKS, nodes).value.slots <= 39 * |nodes|
  {
    if TotalOf(f, EKS, nodes).Ok? {
      SlotsCounted(f, nodes);
      AtMostAllHealthy(nodes);
    }
  }

  method GetConsumedDiskBytes(f: Texts, kind: ClusterType, volumes: seq<string>)
    returns (r: Result<nat, Error>)
    ensures kind == Unknown ==> r == Err(UnknownClusterType)
    ensures kind == EKS ==>
      match SizeOf(f, volumes)
      case Err(e) => r == Err(e)
      case Ok(size) => r == Ok(Wrap(size))
    ensures kind != Unknown && kind != EKS ==> r == Ok(0)
  {
    match kind {
      case Unknown => r := Err(UnknownClusterType);
      case EKS => r := SumVolumesSize(f, volumes);
      case _ => r := Ok(0);
    }
  }

  // ---------- what is available ----------

  datatype Report = Report(capacity: Share, cpu: nat, memory: nat, disk: nat)

  /** The room on the volumes an EKS cluster can still take. */
  function Room(f: Texts, nodes: seq<Node>, volumes: seq<string>): nat
    requires TotalOf(f, EKS, nodes).Ok?
  {
    FreeRoom(TotalOf(f, EKS, nodes).value.slots, |volumes|)
  }

  /** What is reported as available when that much room is found. */
  function Reported(room: nat, size: nat): nat {
    Left(Wrap(room + size), Wrap(size))
  }

  lemma CapacityDisk(f: Texts, nodes: seq<Node>, volumes: seq<string>, capacity: Share)
    requires Accumulates(AllResources(f, EKS, nodes, volumes), Ok(capacity))
    ensures SizeOf(f, volumes).Ok? && TotalOf(f, EKS, nodes).Ok?
    ensures capacity.disk == Wrap(Room(f, nodes, volumes) + SizeOf(f, volumes).value)
  {
    var disk := DiskFor(f, TotalOf(f, EKS, nodes).value.slots, volumes);
    assert disk.Ok? && capacity.disk == Wrap(disk.value);
    assert disk.value == Room(f, nodes, volumes) + SizeOf(f, volumes).value;
  }

  lemma DifferenceIsRoom(disk: nat, consumed: nat, room: nat, size: nat)
    requires disk == Wrap(room + size) && consumed == Wrap(size)
    ensures Wrap(disk - consumed) == Wrap(room)
  {
    WrapSum(room + size, 0 - consumed);
    var k := Laps(size);
    assert room + size - consumed == room + k * TWO_64;
    WrapOnce(room, k);
  }

  /** Of what an EKS cluster reports, the capacity less the consumption is, modulo 2^64, the
      room on the slots of its nodes that its volumes leave free. */
  lemma ReportedDifference(f: Texts, nodes: seq<Node>, volumes: seq<string>, capacity: Share, consumed: nat,
                           room: nat, size: nat)
    requires Accumulates(AllResources(f, EKS, nodes, volumes), Ok(capacity))
    requires SizeOf(f, volumes) == Ok(size) && consumed == Wrap(size)
    requires room == Left(SlotsOf(nodes), |volumes|) * MAX_VOLUME_SIZE
    ensures Wrap(capacity.disk - consumed) == Wrap(room)
  {
    RoomOfSlots(f, nodes, volumes);
    CapacityOfRoom(f, nodes, volumes, capacity, room, size);
    DifferenceIsRoom(capacity.disk, consumed, room, size);
  }

  lemma CapacityOfRoom(f: Texts, nodes: seq<Node>, volumes: seq<string>, capacity: Share, room: nat, size: nat)
    requires Accumulates(AllResources(f, EKS, nodes, volumes), Ok(capacity))
    requires SizeOf(f, volumes) == Ok(size)
    requires room == Room(f, nodes, volumes)
    ensures capacity.disk == Wrap(room + size)
  {
    CapacityDisk(f, nodes, volumes, capacity);
  }

  lemma RoomOfSlots(f: Texts, nodes: seq<Node>, volumes: seq<string>)
    requires TotalOf(f, EKS, nodes).Ok?
    ensures Room(f, nodes, volumes) == FreeRoom(SlotsOf(nodes), |volumes|)
  {
    SlotsCounted(f, nodes);
  }

  lemma LeftExactly(room: nat, size: nat)
    ensures Reported(room, size) == room <==> Fits(room + Wrap(size))
  {
    var w := Wrap(size);
    WrapSum(size, room);
    if !Fits(room + w) && room < TWO_64 {
      WrapOnce(room + w - TWO_64, 1);
    }
  }

  /** What an EKS cluster reports as available is the room for free volumes exactly when that
      room and the reported consumption together fit uint64. */
  lemma AvailableExactly(f: Texts, nodes: seq<Node>, volumes: seq<string>, room: nat, size: nat)
    requires TotalOf(f, EKS, nodes).Ok? && SizeOf(f, volumes) == Ok(size)
    requires room == Left(SlotsOf(nodes), |volumes|) * MAX_VOLUME_SIZE
    ensures room == Room(f, nodes, volumes)
    ensures Reported(room, size) == room <==> Fits(room + Wrap(size))
  {
    RoomOfSlots(f, nodes, volumes);
    LeftExactly(room, size);
  }

  // ---------- room that is not reported ----------

  /** A healthy node of type `x.large`, with no amounts given. */
  ghost predicate LargeNode(node: Node) {
    node == Node(Quantities(None, None), None, Some("x.large"), false)
  }

  function Copies<T>(item: T, count: nat): (items: seq<T>)
    ensures |items| == count
  {
    if count == 0 then [] else Copies(item, count - 1) + [item]
  }

  lemma LowerLarge(name: string)
    requires name == "x.large"
    ensures Family(ToLower(name)) == Some("x")
  {
    var lower := ToLower(name);
    LowerExactly(name);
    assert "x" + "." <= lower;
    OneFamily(lower, "x");
  }

  lemma PlainNodeShare(f: Texts, node: Node)
    requires node.allocatable == Quantities(None, None) && GetEKSVolumeCount(node) == Ok(39)
    ensures ShareOf(f, EKS, node) == Ok(NOTHING.(slots := 39))
  {
    assert MilliCPUs(f, None) == Ok(0) && Bytes(f, None) == Ok(0);
    assert GetResources(f, node.allocatable) == Ok(NOTHING);
    assert DiskShare(f, EKS, node) == Ok(NOTHING.(slots := 39));
  }

  lemma LargeNodeShare(f: Texts, node: Node)
    requires LargeNode(node)
    ensures ShareOf(f, EKS, node) == Ok(NOTHING.(slots := 39))
  {
    UnlimitedFamily(node, node.instanceType.value, "x");
    PlainNodeShare(f, node);
  }

  lemma UnlimitedFamily(node: Node, name: string, family: string)
    requires !node.diskPressure && node.instanceType == Some(name) && name == "x.large" && family == "x"
    ensures GetEKSVolumeCount(node) == Ok(39)
  {
    LowerLarge(name);
    assert family !in LIMITED;
  }

  lemma SlotsSnoc<T>(share: T -> Result<Share, Error>, items: seq<T>, item: T, count: nat)
    requires share(item) == Ok(NOTHING.(slots := 39))
    requires Sum(share, items) == Ok(NOTHING.(slots := 39 * count))
    ensures Sum(share, items + [item]) == Ok(NOTHING.(slots := 39 * (count + 1)))
  {
    SumStep(share, items, item);
  }

  lemma {:induction false} CopiesSlots<T>(share: T -> Result<Share, Error>, item: T, count: nat)
    requires share(item) == Ok(NOTHING.(slots := 39))
    ensures Sum(share, Copies(item, count)) == Ok(NOTHING.(slots := 39 * count))
  {
    if count > 0 {
      CopiesSlots(share, item, count - 1);
      SlotsSnoc(share, Copies(item, count - 1), item, count - 1);
    }
  }

  /** A float64 parser that reads the digit 8, and a product that is exact on 8 * 2^60. */
  ghost predicate ReadsEightEi(floats: Convertors.Floats) {
    && floats.parse("8") == Some(Convertors.Finite(8.0))
    && floats.times(8.0, 0x1000_0000_0000_0000 as real) == Convertors.Finite(0x8000_0000_0000_0000 as real)
  }

  lemma EightEiBytes(floats: Convertors.Floats, text: string)
    requires ReadsEightEi(floats) && text == "8Ei"
    ensures Converters(floats).bytes(text) == Ok(0x8000_0000_0000_0000)
  {
    Convertors.DenotedParts(floats, text, 0, "Ei", "8");
  }

  lemma SumOfOne<T>(share: T -> Result<Share, Error>, item: T)
    requires share(item).Ok?
    ensures Sum(share, [item]) == share(item)
  {
    var items := [item];
    assert items[..|items| - 1] == [];
  }

  lemma OneVolumeSize(f: Texts, volume: string, size: nat)
    requires f.bytes(volume) == Ok(size)
    ensures SizeOf(f, [volume]) == Ok(size)
  {
    SumOfOne(VolumeShare(f), volume);
    assert Bytes(f, Some(volume)) == Ok(size);
  }

  lemma RoomLost(room: nat, size: nat)
    requires room == 524_315 * MAX_VOLUME_SIZE && size == 0x8000_0000_0000_0000
    ensures Reported(room, size) == 0
  {
    assert room + size == 27 * MAX_VOLUME_SIZE + TWO_64;
    WrapOnce(27 * MAX_VOLUME_SIZE, 1);
  }

  /** 13444 large nodes and one volume of 8Ei: there is room for 524315 more volumes, and
      nothing is reported as available. */
  lemma RoomLostExample(floats: Convertors.Floats, f: Texts, node: Node, count: nat, volume: string)
    requires ReadsEightEi(floats) && f == Converters(floats)
    requires LargeNode(node) && count == 13_444 && volume == "8Ei"
    ensures var nodes, volumes := Copies(node, count), [volume];
      && TotalOf(f, EKS, nodes).Ok? && SizeOf(f, volumes).Ok?
      && Room(f, nodes, volumes) == 524_315 * MAX_VOLUME_SIZE
      && Reported(Room(f, nodes, volumes), SizeOf(f, volumes).value) == 0
  {
    LargeNodeShare(f, node);
    assert NodeShare(f, EKS)(node) == ShareOf(f, EKS, node);
    CopiesSlots(NodeShare(f, EKS), node, count);
    EightEiBytes(floats, volume);
    OneVolumeSize(f, volume, 0x8000_0000_0000_0000);
    RoomLost(Room(f, Copies(node, count), [volume]), 0x8000_0000_0000_0000);
  }

  /** On a cluster of fewer than 2^64 / (39 * 2^44) nodes, less what is consumed, no sum
      wraps and the report is exact. */
  lemma NothingWraps(f: Texts, nodes: seq<Node>, volumes: seq<string>)
    requires TotalOf(f, EKS, nodes).Ok? && SizeOf(f, volumes).Ok?
    requires Fits(39 * |nodes| * MAX_VOLUME_SIZE + SizeOf(f, volumes).value)
    ensures Reported(Room(f, nodes, volumes), SizeOf(f, volumes).value) == Room(f, nodes, volumes)
    ensures Fits(Room(f, nodes, volumes) + SizeOf(f, volumes).value)
  {
    SlotsAtMost39(f, nodes);
    RoomFits(TotalOf(f, EKS, nodes).value.slots, |nodes|, |volumes|, SizeOf(f, volumes).value);
    LeftExactly(Room(f, nodes, volumes), SizeOf(f, volumes).value);
  }

  lemma RoomFits(slots: nat, nodes: nat, volumes: nat, size: nat)
    requires slots <= 39 * nodes && Fits(39 * nodes * MAX_VOLUME_SIZE + size)
    ensures Fits(FreeRoom(slots, volumes) + size) && Fits(size)
  {
  }

  /** The disk that is left of what was found. */
  method LeftOnDisk(f: Texts, kind: ClusterType, found: nat, volumes: seq<string>)
    returns (r: Result<nat, Error>)
    requires Fits(found)
    ensures r.Err? <==> kind == Unknown || (kind == EKS && SizeOf(f, volumes).Err?)
    ensures r.Ok? ==> r.value == if kind == EKS then Left(found, Wrap(SizeOf(f, volumes).value)) else found
  {
    var consumed := GetConsumedDiskBytes(f, kind, volumes);
    if consumed.Err? {
      return consumed;
    }
    var disk := Subtract(found, consumed.value);
    r := Ok(disk);
  }

  /** calculateClusterResources */
  method CalculateClusterResources(
    f: Texts, kind: ClusterType, nodes: seq<Node>, volumes: seq<string>, pods: seq<Pod>)
    returns (r: Result<Report, Error>)
    requires Fits(39 * |nodes|) && Fits(|volumes|)
    ensures
      r.Err? <==> kind == Unknown || AllResources(f, kind, nodes, volumes).Err? || Requested(f, pods).Err?
    ensures r.Ok? ==>
      && Accumulates(AllResources(f, kind, nodes, volumes), Ok(r.value.capacity))
      && r.value.cpu == Left(r.value.capacity.cpu, Wrap(Requested(f, pods).value.cpu))
      && r.value.memory == Left(r.value.capacity.memory, Wrap(Requested(f, pods).value.memory))
      && (kind == EKS ==> r.value.disk == Reported(Room(f, nodes, volumes), SizeOf(f, volumes).value))
      && (kind != EKS ==> r.value.disk == r.value.capacity.disk)
  {
    var all := GetAllClusterResources(f, kind, nodes, volumes);
    if all.Err? {
      return Err(all.error);
    }
    if kind == EKS {
      CapacityDisk(f, nodes, volumes, all.value);
    }
    var consumed := GetConsumedCPUAndMemory(f, pods);
    if consumed.Err? {
      return Err(consumed.error);
    }
    var disk := LeftOnDisk(f, kind, all.value.disk, volumes);
    if disk.Err? {
      return Err(disk.error);
    }
    var cpu := Subtract(all.value.cpu, consumed.value.cpu);
    var memory := Subtract(all.value.memory, consumed.value.memory);
    r := Ok(Report(all.value, cpu, memory, disk.value));
  }

  // ---------- what the sums are sums of ----------

  /** The exact sum of what each item amounts to. */
  function Total<T>(amount: T -> Share, items: seq<T>): Share {
    if items == [] then NOTHING else Total(amount, items[..|items| - 1]).Plus(amount(items[|items| - 1]))
  }

  ghost predicate AllOk<T>(share: T -> Result<Share, Error>, items: seq<T>) {
    forall x | x in items :: share(x).Ok?
  }

  lemma TotalSnoc<T>(amount: T -> Share, items: seq<T>, last: T)
    ensures Total(amount, items + [last]) == Total(amount, items).Plus(amount(last))
  {
    assert (items + [last])[..|items|] == items;
  }

  ghost predicate AddsUp<T>(share: T -> Result<Share, Error>, amount: T -> Share, items: seq<T>) {
    && (Sum(share, items).Ok? <==> AllOk(share, items))
    && (Sum(share, items).Ok? ==> Sum(share, items).value == Total(amount, items))
  }

  lemma AllOkSnoc<T>(share: T -> Result<Share, Error>, items: seq<T>, last: T)
    ensures AllOk(share, items + [last]) <==> AllOk(share, items) && share(last).Ok?
  {
    assert last in items + [last];
    assert forall x | x in items :: x in items + [last];
  }

  lemma AddsUpSnoc<T>(share: T -> Result<Share, Error>, amount: T -> Share, items: seq<T>, last: T)
    requires share(last).Ok? ==> share(last).value == amount(last)
    requires AddsUp(share, amount, items)
    ensures AddsUp(share, amount, items + [last])
  {
    SumStep(share, items, last);
    TotalSnoc(amount, items, last);
    AllOkSnoc(share, items, last);
  }

  /** A sum that stops at errors is a plain one exactly when there are none. */
  lemma {:induction false} SumIsTotal<T>(share: T -> Result<Share, Error>, amount: T -> Share, items: seq<T>)
    requires forall x :: share(x).Ok? ==> share(x).value == amount(x)
    ensures AddsUp(share, amount, items)
  {
    if items != [] {
      var init, last := items[..|items| - 1], items[|items| - 1];
      SumIsTotal(share, amount, init);
      AddsUpSnoc(share, amount, init, last);
      assert items == init + [last];
    }
  }

  lemma {:induction false} TotalAppend<T>(amount: T -> Share, x: seq<T>, y: seq<T>)
    ensures Total(amount, x + y) == Total(amount, x).Plus(Total(amount, y))
    decreases |y|
  {
    if y == [] {
      assert x + y == x;
    } else {
      var init, last := y[..|y| - 1], y[|y| - 1];
      assert x + y == (x + init) + [last] && y == init + [last];
      TotalAppend(amount, x, init);
      TotalSnoc(amount, x + init, last);
      TotalSnoc(amount, init, last);
    }
  }

  function ValueOr0(r: Result<nat, Convertors.Error>): nat {
    if r.Ok? then r.value else 0
  }

  /** The number of millicpus given in text; nothing given is zero. */
  function MillisOf(f: Texts, q: Quantities): nat {
    if q.cpu.None? then 0 else ValueOr0(f.millis(q.cpu.value))
  }

  /** The number of bytes given in text; nothing given is zero. */
  function BytesOf(f: Texts, size: Option<string>): nat {
    if size.None? then 0 else ValueOr0(f.bytes(size.value))
  }

  /** Both amounts can be read. */
  predicate Readable(f: Texts, q: Quantities) {
    && (q.cpu.Some? ==> f.millis(q.cpu.value).Ok?)
    && (q.memory.Some? ==> f.bytes(q.memory.value).Ok?)
  }

  /** What a container asks for: its millicpus and its bytes of memory. */
  function ContainerAmount(f: Texts): Quantities -> Share {
    (q: Quantities) => Share(MillisOf(f, q), BytesOf(f, q.memory), 0, 0)
  }

  lemma ResourcesExactly(f: Texts, q: Quantities)
    ensures GetResources(f, q).Ok? <==> Readable(f, q)
    ensures GetResources(f, q).Ok? ==> GetResources(f, q).value == ContainerAmount(f)(q)
  {
  }

  /** What a node has: its allocatable millicpus and bytes of memory, and its ephemeral storage
      on Minikube or its volume slots on EKS. */
  ghost function NodeAmount(f: Texts, kind: ClusterType): Node -> Share {
    (n: Node) => Share(
      MillisOf(f, n.allocatable),
      BytesOf(f, n.allocatable.memory),
      if kind == Minikube then BytesOf(f, n.ephemeralStorage) else 0,
      if kind != EKS || n.diskPressure then 0 else if Limited(n) then 25 else 39)
  }

  /** A node counts: its amounts can be read, and so can what its type of cluster asks for. */
  predicate Counts(f: Texts, kind: ClusterType, node: Node) {
    && Readable(f, node.allocatable)
    && kind != Unknown
    && (kind == Minikube ==> node.ephemeralStorage.Some? && f.bytes(node.ephemeralStorage.value).Ok?)
    && (kind == EKS ==> node.diskPressure || (node.instanceType.Some? && '.' in node.instanceType.value))
  }

  lemma LowerDots(name: string)
    ensures '.' in ToLower(name) <==> '.' in name
  {
    var lower := ToLower(name);
    LowerExactly(name);
    assert forall i | 0 <= i < |name| :: lower[i] == '.' <==> name[i] == '.';
    if '.' in name {
      var i :| 0 <= i < |name| && name[i] == '.';
      assert lower[i] == '.';
    }
    if '.' in lower {
      var i :| 0 <= i < |name| && lower[i] == '.';
      assert name[i] == '.';
    }
  }

  lemma SlotsExactly(node: Node)
    ensures GetEKSVolumeCount(node).Ok?
       <==> node.diskPressure || (node.instanceType.Some? && '.' in node.instanceType.value)
    ensures GetEKSVolumeCount(node).Ok? ==>
      GetEKSVolumeCount(node).value == if node.diskPressure then 0 else if Limited(node) then 25 else 39
  {
    if !node.diskPressure && node.instanceType.Some? {
      LowerDots(node.instanceType.value);
      if '.' in node.instanceType.value {
        LimitedExactly(node);
      }
    }
  }

  lemma DiskShareExactly(f: Texts, kind: ClusterType, node: Node)
    requires Readable(f, node.allocatable)
    ensures DiskShare(f, kind, node).Ok? <==> Counts(f, kind, node)
    ensures DiskShare(f, kind, node).Ok? ==>
      var s, n := DiskShare(f, kind, node).value, NodeAmount(f, kind)(node);
      s == Share(0, 0, n.disk, n.slots)
  {
    SlotsExactly(node);
  }

  lemma ShareParts(f: Texts, kind: ClusterType, node: Node)
    ensures
      var q, d := GetResources(f, node.allocatable), DiskShare(f, kind, node);
      && (ShareOf(f, kind, node).Ok? <==> q.Ok? && d.Ok?)
      && (ShareOf(f, kind, node).Ok? ==> ShareOf(f, kind, node).value == q.value.Plus(d.value))
  {
  }

  lemma ShareExactly(f: Texts, kind: ClusterType, node: Node)
    ensures NodeShare(f, kind)(node).Ok? <==> Counts(f, kind, node)
    ensures NodeShare(f, kind)(node).Ok? ==> NodeShare(f, kind)(node).value == NodeAmount(f, kind)(node)
  {
    ShareParts(f, kind, node);
    ResourcesExactly(f, node.allocatable);
    if Readable(f, node.allocatable) {
      DiskShareExactly(f, kind, node);
    }
  }

  /** The totals of the nodes are the sums of what they have, and there are totals exactly when
      every node counts. */
  lemma NodeTotals(f: Texts, kind: ClusterType, nodes: seq<Node>)
    ensures TotalOf(f, kind, nodes).Ok? <==> forall n | n in nodes :: Counts(f, kind, n)
    ensures TotalOf(f, kind, nodes).Ok? ==> TotalOf(f, kind, nodes).value == Total(NodeAmount(f, kind), nodes)
  {
    forall n: Node
      ensures NodeShare(f, kind)(n).Ok? <==> Counts(f, kind, n)
      ensures NodeShare(f, kind)(n).Ok? ==> NodeShare(f, kind)(n).value == NodeAmount(f, kind)(n)
    {
      ShareExactly(f, kind, n);
    }
    SumIsTotal(NodeShare(f, kind), NodeAmount(f, kind), nodes);
  }

  /** What a pod asks for: the amounts of its containers if it is running, and with them those
      of all its init containers unless some status reports a terminated one. */
  ghost function PodAmount(f: Texts): Pod -> Share {
    (pod: Pod) => PodTotal(ContainerAmount(f), pod)
  }

  ghost function PodTotal(amount: Quantities -> Share, pod: Pod): Share {
    if !pod.running then NOTHING
    else if NoneTerminated(pod) then Total(amount, pod.containers).Plus(Total(amount, pod.initContainers))
    else Total(amount, pod.containers)
  }

  ghost predicate NoneTerminated(pod: Pod) {
    forall s | s in pod.initContainerStatuses :: Terminated !in s
  }

  lemma SomeOrNone(pod: Pod)
    ensures SomeTerminated(pod) <==> !NoneTerminated(pod)
  {
  }

  lemma PodTotalExactly(amount: Quantities -> Share, pod: Pod)
    ensures Total(amount, CountedOf(pod)) == PodTotal(amount, pod)
  {
    SomeOrNone(pod);
    if pod.running && !SomeTerminated(pod) {
      TotalAppend(amount, pod.containers, pod.initContainers);
    }
  }

  lemma {:induction false} CountedTotal(f: Texts, pods: seq<Pod>)
    ensures Total(ContainerAmount(f), Counted(pods)) == Total(PodAmount(f), pods)
  {
    if pods != [] {
      var init, last := pods[..|pods| - 1], pods[|pods| - 1];
      CountedTotal(f, init);
      TotalAppend(ContainerAmount(f), Counted(init), CountedOf(last));
      PodTotalExactly(ContainerAmount(f), last);
    }
  }

  /** The requests are the sums of what the pods ask for, and there are sums exactly when all
      amounts that count can be read. */
  lemma RequestedExactly(f: Texts, pods: seq<Pod>)
    ensures Requested(f, pods).Ok? <==> forall q | q in Counted(pods) :: Readable(f, q)
    ensures Requested(f, pods).Ok? ==> Requested(f, pods).value == Total(PodAmount(f), pods)
  {
    forall q: Quantities
      ensures ContainerShare(f)(q).Ok? <==> Readable(f, q)
      ensures ContainerShare(f)(q).Ok? ==> ContainerShare(f)(q).value == ContainerAmount(f)(q)
    {
      ResourcesExactly(f, q);
    }
    SumIsTotal(ContainerShare(f), ContainerAmount(f), Counted(pods));
    CountedTotal(f, pods);
  }

  function VolumeAmount(f: Texts): string -> Share {
    (volume: string) => Share(0, 0, ValueOr0(f.bytes(volume)), 0)
  }

  lemma VolumeShareExactly(f: Texts, volume: string)
    ensures VolumeShare(f)(volume).Ok? <==> f.bytes(volume).Ok?
    ensures VolumeShare(f)(volume).Ok? ==> VolumeShare(f)(volume).value == VolumeAmount(f)(volume)
  {
  }

  /** The size of the volumes is the sum of the numbers of bytes that their texts stand for. */
  lemma SizeExactly(f: Texts, volumes: seq<string>)
    ensures SizeOf(f, volumes).Ok? <==> forall v | v in volumes :: f.bytes(v).Ok?
    ensures SizeOf(f, volumes).Ok? ==> SizeOf(f, volumes).value == Total(VolumeAmount(f), volumes).disk
  {
    forall v: string
      ensures VolumeShare(f)(v).Ok? <==> f.bytes(v).Ok?
      ensures VolumeShare(f)(v).Ok? ==> VolumeShare(f)(v).value == VolumeAmount(f)(v)
    {
      VolumeShareExactly(f, v);
    }
    SumIsTotal(VolumeShare(f), VolumeAmount(f), volumes);
  }
}
