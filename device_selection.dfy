/** The decision logic of FxPhysicalDevice.cpp: the per-candidate rejection
    cascade, the queue-family probe, the score, the arg-max over candidates,
    the enabled-extension list and the core-feature check. Each imperative
    routine of the source is a method proved equal to a specification
    function; the properties the source promises are lemmas about those
    functions. */
module DeviceSelection {
  import opened Wrappers
  import opened PhysicalDeviceTypes

  /** std::numeric_limits<long long>::min(): the score of a rejected
      candidate and the initial best score of the arg-max. */
  const LongLongMin: int := -0x8000_0000_0000_0000

  /** Bytes per megabyte in the VRAM term (1024ull * 1024ull). */
  const MiB: nat := 1024 * 1024

  /** The exceptions FxPhysicalDevice throws (THROW_EXCEPTION_FMT). */
  datatype SelectionError =
    | NoDevicesToScore
    | ExtensionEnumerationFailed(index: nat)
    | NoSuitableDevice
    | NoPhysicalDeviceSelected
    | QueueFamiliesNotSatisfied
    | MissingRequiredExtension(name: string)
    | MissingCoreFeature(feature: string)
    | SelectedExtensionsUnavailable

  // ---------------------------------------------------------------------
  // Extension lookup
  // ---------------------------------------------------------------------

  /** HasExt: linear search of the enumerated extensions for an exact name. */
  function HasExt(exts: seq<string>, name: string): (found: bool)
    ensures found <==> name in exts
  {
    if |exts| == 0 then false
    else exts[0] == name || HasExt(exts[1..], name)
  }

  /** The first name of `required` that the device does not report, if any:
      the name the required-extension loop stops at. */
  function FirstMissing(required: seq<string>, exts: seq<string>): (r: Option<string>)
    ensures r.None? <==> forall j :: 0 <= j < |required| ==> required[j] in exts
    ensures r.Some? ==> exists k :: 0 <= k < |required| && required[k] == r.value
                          && required[k] !in exts && forall j :: 0 <= j < k ==> required[j] in exts
  {
    if |required| == 0 then None
    else if !HasExt(exts, required[0]) then Some(required[0])
    else
      var r := FirstMissing(required[1..], exts);
      assert forall j :: 1 <= j < |required| ==> required[j] == required[1..][j - 1];
      r
  }

  /** FirstMissing is pinned down by the position it stops at. */
  lemma FirstMissingAt(required: seq<string>, exts: seq<string>, k: nat)
    requires k < |required| && required[k] !in exts
    requires forall j :: 0 <= j < k ==> required[j] in exts
    ensures FirstMissing(required, exts) == Some(required[k])
  {
    var r := FirstMissing(required, exts);
    var k' :| 0 <= k' < |required| && required[k'] == r.value
              && required[k'] !in exts && forall j :: 0 <= j < k' ==> required[j] in exts;
    assert k' == k;
  }

  /** The required names pushed before the required-extension loop stops:
      the longest prefix whose names the device all reports. */
  function AvailablePrefix(required: seq<string>, exts: seq<string>): (p: seq<string>)
    ensures |p| <= |required| && p == required[..|p|]
    ensures forall j :: 0 <= j < |p| ==> p[j] in exts
    ensures |p| < |required| ==> required[|p|] !in exts
  {
    if |required| == 0 || !HasExt(exts, required[0]) then []
    else
      var rest := AvailablePrefix(required[1..], exts);
      assert forall j :: 1 <= j < |required| ==> required[j] == required[1..][j - 1];
      [required[0]] + rest
  }

  /** AvailablePrefix is pinned down by the position it stops at. */
  lemma AvailablePrefixAt(required: seq<string>, exts: seq<string>, k: nat)
    requires k <= |required|
    requires forall j :: 0 <= j < k ==> required[j] in exts
    requires k < |required| ==> required[k] !in exts
    ensures AvailablePrefix(required, exts) == required[..k]
  {
    var p := AvailablePrefix(required, exts);
    assert |p| == k;
  }

  /** The optional names the device reports, in policy order. */
  function PresentOptionals(optional: seq<string>, exts: seq<string>): (r: seq<string>)
    ensures forall x :: x in r <==> x in optional && x in exts
    ensures |r| <= |optional|
  {
    if |optional| == 0 then []
    else
      var n := |optional| - 1;
      var rest := PresentOptionals(optional[..n], exts);
      assert forall x :: x in optional <==> x in optional[..n] || x == optional[n];
      if HasExt(exts, optional[n]) then rest + [optional[n]] else rest
  }

  /** One optional name is kept iff the device reports it. */
  lemma PresentOptionalsSingle(o: string, exts: seq<string>)
    ensures PresentOptionals([o], exts) == (if o in exts then [o] else [])
  {
    assert [o][..0] == [];
  }

  /** The optional filter distributes over concatenation; with the singleton
      case this fixes the order and the multiplicity of what is kept. */
  lemma {:induction false} PresentOptionalsAppend(a: seq<string>, b: seq<string>, exts: seq<string>)
    ensures PresentOptionals(a + b, exts) == PresentOptionals(a, exts) + PresentOptionals(b, exts)
    decreases |b|
  {
    if |b| == 0 {
      assert a + b == a;
    } else {
      var n := |b| - 1;
      assert (a + b)[..|a + b| - 1] == a + b[..n];
      assert (a + b)[|a + b| - 1] == b[n];
      PresentOptionalsAppend(a, b[..n], exts);
    }
  }

  // ---------------------------------------------------------------------
  // Queue-family probe
  // ---------------------------------------------------------------------

  /** The capability each scan of ProbeQueueFamilies looks for. */
  datatype Role = Graphics | Compute | DedicatedCompute | Transfer | DedicatedTransfer | Present

  predicate Serves(f: QueueFamily, role: Role) {
    match role
    case Graphics => f.graphics
    case Compute => f.compute
    case DedicatedCompute => f.compute && !f.graphics
    case Transfer => f.transfer
    case DedicatedTransfer => f.transfer && !f.graphics && !f.compute
    case Present => f.presentSupported
  }

  /** `k` is the lowest index below `n` whose family serves `role`, or -1
      when none below `n` does. */
  ghost predicate FirstBelow(fs: seq<QueueFamily>, role: Role, k: int, n: nat)
    requires n <= |fs|
  {
    && -1 <= k < n
    && (k >= 0 ==> Serves(fs[k], role))
    && forall j :: 0 <= j < n && (k < 0 || j < k) ==> !Serves(fs[j], role)
  }

  /** The lowest family index serving `role`, -1 if there is none. */
  function FirstServing(fs: seq<QueueFamily>, role: Role): (r: int)
    ensures FirstBelow(fs, role, r, |fs|)
  {
    if |fs| == 0 then -1
    else if Serves(fs[0], role) then 0
    else
      var r := FirstServing(fs[1..], role);
      assert forall j :: 1 <= j < |fs| ==> fs[j] == fs[1..][j - 1];
      if r < 0 then -1 else r + 1
  }

  /** FirstBelow over the whole list pins down FirstServing. */
  lemma FirstServingUnique(fs: seq<QueueFamily>, role: Role, k: int)
    requires FirstBelow(fs, role, k, |fs|)
    ensures k == FirstServing(fs, role)
  {
    var r := FirstServing(fs, role);
    if k >= 0 && r >= 0 {
      assert !(k < r) && !(r < k);
    }
  }

  /** The probe's outcome: the `bool` it returns and the descriptor it fills. */
  datatype Probe = Probe(ok: bool, queues: QueueIndices)

  /** ProbeQueueFamilies: no family means failure; otherwise Graphics and
      Present (queried only with a surface attached) are the first matching
      families, Compute and Transfer prefer dedicated families when the policy
      asks, and every unassigned role falls back to Graphics. */
  function ProbeSpec(fs: seq<QueueFamily>, hasSurface: bool, policy: Policy): Probe
  {
    if |fs| == 0 then Probe(false, UnassignedQueues())
    else
      var g := FirstServing(fs, Graphics);
      var p := if hasSurface then FirstServing(fs, Present) else -1;
      var c0 := if policy.preferDedicatedCompute then FirstServing(fs, DedicatedCompute) else -1;
      var c := if c0 >= 0 then c0 else FirstServing(fs, Compute);
      var t0 := if policy.preferDedicatedTransfer then FirstServing(fs, DedicatedTransfer) else -1;
      var t := if t0 >= 0 then t0 else FirstServing(fs, Transfer);
      var q := QueueIndices(g, if c >= 0 then c else g, if t >= 0 then t else g, if p >= 0 then p else g);
      Probe(q.IsValid(policy.requireSwapChain), q)
  }

  /** One `for (...) if (cond) { x = i; break; }` scan of the source. */
  method ScanFirst(fs: seq<QueueFamily>, role: Role) returns (idx: int)
    ensures idx == FirstServing(fs, role)
  {
    idx := -1;
    var i := 0;
    while i < |fs|
      invariant 0 <= i <= |fs|
      invariant idx == -1
      invariant forall j :: 0 <= j < i ==> !Serves(fs[j], role)
    {
      if Serves(fs[i], role) {
        idx := i;
        break;
      }
      i := i + 1;
    }
    FirstServingUnique(fs, role, idx);
  }

  /** ProbeQueueFamilies (FxPhysicalDevice.cpp): pass 1 finds Graphics and,
      with a surface, Present; passes 2 and 3 find Compute and Transfer. */
  method ProbeQueueFamilies(fs: seq<QueueFamily>, hasSurface: bool, policy: Policy)
    returns (ok: bool, out: QueueIndices)
    ensures Probe(ok, out) == ProbeSpec(fs, hasSurface, policy)
  {
    out := UnassignedQueues();
    if |fs| == 0 {
      return false, out;
    }
    var graphics, compute, transfer, present := -1, -1, -1, -1;

    var i := 0;
    while i < |fs|
      invariant 0 <= i <= |fs|
      invariant FirstBelow(fs, Graphics, graphics, i)
      invariant hasSurface ==> FirstBelow(fs, Present, present, i)
      invariant !hasSurface ==> present == -1
    {
      if fs[i].graphics && graphics < 0 {
        graphics := i;
      }
      if hasSurface {
        if fs[i].presentSupported && present < 0 {
          present := i;
        }
      }
      i := i + 1;
    }
    FirstServingUnique(fs, Graphics, graphics);
    if hasSurface {
      FirstServingUnique(fs, Present, present);
    }

    if policy.preferDedicatedCompute {
      compute := ScanFirst(fs, DedicatedCompute);
    }
    if compute < 0 {
      compute := ScanFirst(fs, Compute);
    }
    if policy.preferDedicatedTransfer {
      transfer := ScanFirst(fs, DedicatedTransfer);
    }
    if transfer < 0 {
      transfer := ScanFirst(fs, Transfer);
    }

    out := QueueIndices(
      graphics,
      if compute >= 0 then compute else graphics,
      if transfer >= 0 then transfer else graphics,
      if present >= 0 then present else graphics);
    ok := out.IsValid(policy.requireSwapChain);
  }

  /** The probe succeeds exactly when some family has graphics, whatever the
      present requirement: Present falls back to Graphics, so the present
      clause of IsValid can never fail on its own. */
  lemma ProbeSucceedsIffGraphics(fs: seq<QueueFamily>, hasSurface: bool, policy: Policy)
    ensures ProbeSpec(fs, hasSurface, policy).ok <==> exists i :: 0 <= i < |fs| && fs[i].graphics
    ensures ProbeSpec(fs, hasSurface, policy).queues.IsValid(true)
        == ProbeSpec(fs, hasSurface, policy).queues.IsValid(false)
  {
    if |fs| > 0 {
      var g := FirstServing(fs, Graphics);
      if g >= 0 {
        assert fs[g].graphics;
      }
    }
  }

  /** Role assignment of a successful probe: Graphics is the lowest graphics
      family; Compute is the lowest dedicated compute family when preferred
      and present, else the lowest compute family, else Graphics; likewise
      Transfer; Present is the lowest present-capable family when a surface is
      attached, else Graphics. Every index is a real family. */
  lemma ProbeRoles(fs: seq<QueueFamily>, hasSurface: bool, policy: Policy)
    requires ProbeSpec(fs, hasSurface, policy).ok
    ensures var q := ProbeSpec(fs, hasSurface, policy).queues;
      && 0 <= q.graphics < |fs| && 0 <= q.compute < |fs|
      && 0 <= q.transfer < |fs| && 0 <= q.present < |fs|
      && q.graphics == FirstServing(fs, Graphics)
      && q.compute == (if policy.preferDedicatedCompute && FirstServing(fs, DedicatedCompute) >= 0
                       then FirstServing(fs, DedicatedCompute)
                       else if FirstServing(fs, Compute) >= 0 then FirstServing(fs, Compute)
                       else q.graphics)
      && q.transfer == (if policy.preferDedicatedTransfer && FirstServing(fs, DedicatedTransfer) >= 0
                        then FirstServing(fs, DedicatedTransfer)
                        else if FirstServing(fs, Transfer) >= 0 then FirstServing(fs, Transfer)
                        else q.graphics)
      && q.present == (if hasSurface && FirstServing(fs, Present) >= 0
                       then FirstServing(fs, Present) else q.graphics)
  {
  }

  // ---------------------------------------------------------------------
  // Score
  // ---------------------------------------------------------------------

  /** Zero-based position of the first occurrence of `t` (std::ranges::find). */
  function Rank(types: seq<DeviceType>, t: DeviceType): (r: nat)
    requires t in types
    ensures r < |types| && types[r] == t && t !in types[..r]
  {
    if types[0] == t then 0
    else
      var r := Rank(types[1..], t);
      assert types[..r + 1] == [types[0]] + types[1..][..r];
      r + 1
  }

  /** `bestHeap` after the heap loop: the largest size among device-local
      heaps, 0 when there is none. */
  function LargestDeviceLocal(heaps: seq<MemoryHeap>): (best: nat)
    ensures forall k :: 0 <= k < |heaps| && heaps[k].deviceLocal ==> heaps[k].size <= best
    ensures best == 0 || exists k :: 0 <= k < |heaps| && heaps[k].deviceLocal && heaps[k].size == best
  {
    if |heaps| == 0 then 0
    else
      var rest := LargestDeviceLocal(heaps[..|heaps| - 1]);
      var h := heaps[|heaps| - 1];
      if h.deviceLocal && h.size > rest then h.size else rest
  }

  /** The heap loop of PickBestDeviceIndex. */
  method LargestDeviceLocalHeap(heaps: seq<MemoryHeap>) returns (bestHeap: nat)
    ensures bestHeap == LargestDeviceLocal(heaps)
  {
    bestHeap := 0;
    var h := 0;
    while h < |heaps|
      invariant 0 <= h <= |heaps|
      invariant bestHeap == LargestDeviceLocal(heaps[..h])
    {
      assert heaps[..h + 1][..h] == heaps[..h];
      if heaps[h].deviceLocal && heaps[h].size > bestHeap {
        bestHeap := heaps[h].size;
      }
      h := h + 1;
    }
    assert heaps[..|heaps|] == heaps;
  }

  /** The accepted score: type-rank term, image-size term and VRAM term. */
  function Score(policy: Policy, dev: Device): int
    requires dev.deviceType in policy.preferredTypes
  {
    (1000 - 100 * Rank(policy.preferredTypes, dev.deviceType))
    + policy.weightMaxImage2D * dev.maxImageDimension2D
    + policy.weightVRam * (LargestDeviceLocal(dev.heaps) / MiB)
  }

  /** Without a device-local heap of at least one megabyte the VRAM term is 0. */
  lemma NoDeviceLocalMemoryScoresNothing(policy: Policy, dev: Device)
    requires dev.deviceType in policy.preferredTypes
    requires forall k :: 0 <= k < |dev.heaps| && dev.heaps[k].deviceLocal ==> dev.heaps[k].size < MiB
    ensures Score(policy, dev)
         == 1000 - 100 * Rank(policy.preferredTypes, dev.deviceType)
            + policy.weightMaxImage2D * dev.maxImageDimension2D
  {
    var best := LargestDeviceLocal(dev.heaps);
    assert best < MiB;
  }

  /** Two devices that differ only in type: the one ranked earlier in the
      preference list scores exactly 100 per rank step more. */
  lemma EarlierTypeScoresHigher(policy: Policy, a: Device, b: Device)
    requires a.deviceType in policy.preferredTypes && b.deviceType in policy.preferredTypes
    requires a.maxImageDimension2D == b.maxImageDimension2D && a.heaps == b.heaps
    ensures Score(policy, a) - Score(policy, b)
         == 100 * (Rank(policy.preferredTypes, b.deviceType) - Rank(policy.preferredTypes, a.deviceType))
  {
  }

  /** With non-negative weights (as the defaults are) and a preference list
      whose positions fit the `int` rank of the source, an accepted score is
      strictly above the LLONG_MIN sentinel, so it can be selected. */
  lemma ScoreAboveSentinel(policy: Policy, dev: Device)
    requires dev.deviceType in policy.preferredTypes
    requires policy.weightMaxImage2D >= 0 && policy.weightVRam >= 0
    requires |policy.preferredTypes| <= 0x8000_0000
    ensures Score(policy, dev) > LongLongMin
  {
    var rank := Rank(policy.preferredTypes, dev.deviceType);
    assert 0 <= policy.weightMaxImage2D * dev.maxImageDimension2D;
    assert 0 <= policy.weightVRam * (LargestDeviceLocal(dev.heaps) / MiB);
  }

  // ---------------------------------------------------------------------
  // Rejection cascade
  // ---------------------------------------------------------------------

  datatype Rejection =
    | TypeNotPreferred
    | MissingSwapchain
    | RequiredExtensionMissing(name: string)
    | QueueFamiliesIncomplete

  datatype Verdict = Rejected(reason: Rejection) | Accepted(score: int)

  /** One iteration of the scoring loop for device number `index`: the
      cascade short-circuits at the first failing check; an extension
      enumeration failure (reached only for a preferred type) throws. */
  function Evaluate(policy: Policy, dev: Device, index: nat, hasSurface: bool): Result<Verdict, SelectionError>
  {
    if dev.deviceType !in policy.preferredTypes then Ok(Rejected(TypeNotPreferred))
    else if dev.extensions.None? then Err(ExtensionEnumerationFailed(index))
    else
      var exts := dev.extensions.value;
      if policy.requireSwapChain && !HasExt(exts, SwapchainExtension) then Ok(Rejected(MissingSwapchain))
      else if FirstMissing(policy.requiredExtensions, exts).Some? then
        Ok(Rejected(RequiredExtensionMissing(FirstMissing(policy.requiredExtensions, exts).value)))
      else
        var probe := ProbeSpec(dev.queueFamilies, hasSurface, policy);
        if !probe.ok || !probe.queues.IsValid(policy.requireSwapChain) then Ok(Rejected(QueueFamiliesIncomplete))
        else Ok(Accepted(Score(policy, dev)))
  }

  /** A device is accepted exactly when its type is preferred, its
      extensions enumerate, it has the swap chain when required, it has every
      required extension and some queue family has graphics. */
  lemma AcceptedIff(policy: Policy, dev: Device, index: nat, hasSurface: bool)
    ensures (Evaluate(policy, dev, index, hasSurface).Ok? && Evaluate(policy, dev, index, hasSurface).value.Accepted?)
        <==> && dev.deviceType in policy.preferredTypes
             && dev.extensions.Some?
             && (policy.requireSwapChain ==> SwapchainExtension in dev.extensions.value)
             && (forall j :: 0 <= j < |policy.requiredExtensions| ==> policy.requiredExtensions[j] in dev.extensions.value)
             && (exists i :: 0 <= i < |dev.queueFamilies| && dev.queueFamilies[i].graphics)
  {
    ProbeSucceedsIffGraphics(dev.queueFamilies, hasSurface, policy);
  }

  /** Adding required extensions can only shrink the accepted set: a device
      accepted under the longer list is accepted, with the same score, under
      the shorter one. */
  lemma RequiringMoreNeverAccepts(policy: Policy, extra: seq<string>, dev: Device, index: nat, hasSurface: bool)
    requires var stricter := policy.(requiredExtensions := policy.requiredExtensions + extra);
      var v := Evaluate(stricter, dev, index, hasSurface);
      v.Ok? && v.value.Accepted?
    ensures Evaluate(policy, dev, index, hasSurface)
         == Evaluate(policy.(requiredExtensions := policy.requiredExtensions + extra), dev, index, hasSurface)
  {
    var stricter := policy.(requiredExtensions := policy.requiredExtensions + extra);
    var exts := dev.extensions.value;
    assert FirstMissing(stricter.requiredExtensions, exts).None?;
    forall j | 0 <= j < |policy.requiredExtensions|
      ensures policy.requiredExtensions[j] in exts
    {
      assert stricter.requiredExtensions[j] == policy.requiredExtensions[j];
    }
  }

  // ---------------------------------------------------------------------
  // Candidates and the arg-max
  // ---------------------------------------------------------------------

  /** struct Candidate { int idx; long long score; bool ok; } */
  datatype Candidate = Candidate(idx: int, score: int, ok: bool)

  function CandidateOf(index: nat, v: Verdict): Candidate {
    match v
    case Rejected(_) => Candidate(index, LongLongMin, false)
    case Accepted(s) => Candidate(index, s, true)
  }

  /** The `cands` vector after scoring every device, or the first exception. */
  function Candidates(policy: Policy, devices: seq<Device>, hasSurface: bool): (r: Result<seq<Candidate>, SelectionError>)
    ensures r.Ok? ==> |r.value| == |devices|
    ensures r.Ok? ==> forall j :: 0 <= j < |devices| ==>
              Evaluate(policy, devices[j], j, hasSurface).Ok?
              && r.value[j] == CandidateOf(j, Evaluate(policy, devices[j], j, hasSurface).value)
    ensures r.Err? ==> exists j :: (0 <= j < |devices|
              && Evaluate(policy, devices[j], j, hasSurface) == Err(r.error)
              && forall k :: 0 <= k < j ==> Evaluate(policy, devices[k], k, hasSurface).Ok?)
  {
    if |devices| == 0 then Ok([])
    else
      var n := |devices| - 1;
      match Candidates(policy, devices[..n], hasSurface)
      case Err(e) => Err(e)
      case Ok(cs) =>
        match Evaluate(policy, devices[n], n, hasSurface)
        case Err(e) => Err(e)
        case Ok(v) => Ok(cs + [CandidateOf(n, v)])
  }

  /** Position of the chosen candidate: the accepted one whose score strictly
      beats every earlier accepted score and the LLONG_MIN start value, and is
      at least every later accepted score (ties go to the lowest index). */
  function BestOf(cands: seq<Candidate>): (r: Option<nat>)
    ensures r.None? ==> forall j :: 0 <= j < |cands| && cands[j].ok ==> cands[j].score <= LongLongMin
    ensures r.Some? ==> && r.value < |cands| && cands[r.value].ok && cands[r.value].score > LongLongMin
                        && (forall j :: 0 <= j < r.value && cands[j].ok ==> cands[j].score < cands[r.value].score)
                        && (forall j :: r.value < j < |cands| && cands[j].ok ==> cands[j].score <= cands[r.value].score)
  {
    if |cands| == 0 then None
    else
      var n := |cands| - 1;
      var prev := BestOf(cands[..n]);
      var bestScore := if prev.Some? then cands[prev.value].score else LongLongMin;
      if cands[n].ok && cands[n].score > bestScore then Some(n) else prev
  }

  /** PickBestDeviceIndex as a function: no device throws; otherwise the
      first exception of the scoring loop; otherwise the arg-max, or
      NoSuitableDevice when nothing was accepted. */
  function SelectSpec(policy: Policy, devices: seq<Device>, hasSurface: bool): Result<nat, SelectionError>
  {
    if |devices| == 0 then Err(NoDevicesToScore)
    else
      match Candidates(policy, devices, hasSurface)
      case Err(e) => Err(e)
      case Ok(cs) =>
        match BestOf(cs)
        case None => Err(NoSuitableDevice)
        case Some(b) => Ok(b)
  }

  /** The selected device is accepted, its score beats the LLONG_MIN start,
      strictly beats every earlier accepted device and is at least every
      later one; a rejected device is never returned. */
  lemma SelectionIsFirstArgMax(policy: Policy, devices: seq<Device>, hasSurface: bool)
    requires SelectSpec(policy, devices, hasSurface).Ok?
    ensures var b := SelectSpec(policy, devices, hasSurface).value;
      && b < |devices|
      && var v := Evaluate(policy, devices[b], b, hasSurface);
      && v.Ok? && v.value.Accepted? && v.value.score > LongLongMin
      && (forall j :: 0 <= j < b ==> var w := Evaluate(policy, devices[j], j, hasSurface);
            w.Ok? && (w.value.Accepted? ==> w.value.score < v.value.score))
      && (forall j :: b < j < |devices| ==> var w := Evaluate(policy, devices[j], j, hasSurface);
            w.Ok? && (w.value.Accepted? ==> w.value.score <= v.value.score))
  {
    var cs := Candidates(policy, devices, hasSurface).value;
    var b := BestOf(cs).value;
    forall j | 0 <= j < |devices|
      ensures var w := Evaluate(policy, devices[j], j, hasSurface);
        w.Ok? && cs[j].ok == w.value.Accepted? && (w.value.Accepted? ==> cs[j].score == w.value.score)
    {
    }
  }

  /** NoSuitableDevice is thrown only when every device was rejected (or,
      with negative weights, scored no higher than LLONG_MIN); the empty list
      throws before scoring. The `best < 0` branch of Init is unreachable. */
  lemma SelectionFailures(policy: Policy, devices: seq<Device>, hasSurface: bool)
    ensures SelectSpec(policy, devices, hasSurface) == Err(NoDevicesToScore) <==> |devices| == 0
    ensures SelectSpec(policy, devices, hasSurface) == Err(NoSuitableDevice) ==>
      forall j :: 0 <= j < |devices| ==> var w := Evaluate(policy, devices[j], j, hasSurface);
        w.Ok? && (w.value.Accepted? ==> w.value.score <= LongLongMin)
    ensures SelectSpec(policy, devices, hasSurface).Ok? ==> SelectSpec(policy, devices, hasSurface).value >= 0
  {
    if |devices| > 0 {
      var c := Candidates(policy, devices, hasSurface);
      if c.Err? {
        var j :| 0 <= j < |devices| && Evaluate(policy, devices[j], j, hasSurface) == Err(c.error);
        assert c.error.ExtensionEnumerationFailed?;
      } else if BestOf(c.value).None? {
        forall j | 0 <= j < |devices|
          ensures var w := Evaluate(policy, devices[j], j, hasSurface);
            w.Ok? && (w.value.Accepted? ==> w.value.score <= LongLongMin)
        {
          assert c.value[j] == CandidateOf(j, Evaluate(policy, devices[j], j, hasSurface).value);
        }
      }
    }
  }

  /** One iteration of the scoring loop, as the source runs it. */
  method EvaluateDevice(policy: Policy, dev: Device, index: nat, hasSurface: bool)
    returns (r: Result<Candidate, SelectionError>)
    ensures r == (match Evaluate(policy, dev, index, hasSurface)
                  case Err(e) => Err(e)
                  case Ok(v) => Ok(CandidateOf(index, v)))
  {
    // 1) device type preference
    if dev.deviceType !in policy.preferredTypes {
      return Ok(Candidate(index, LongLongMin, false));
    }
    // 2) extensions
    if dev.extensions.None? {
      return Err(ExtensionEnumerationFailed(index));
    }
    var exts := dev.extensions.value;
    if policy.requireSwapChain && !HasExt(exts, SwapchainExtension) {
      return Ok(Candidate(index, LongLongMin, false));
    }
    var missingReqExt := false;
    var k := 0;
    while k < |policy.requiredExtensions|
      invariant 0 <= k <= |policy.requiredExtensions|
      invariant !missingReqExt
      invariant forall j :: 0 <= j < k ==> policy.requiredExtensions[j] in exts
    {
      if !HasExt(exts, policy.requiredExtensions[k]) {
        missingReqExt := true;
        break;
      }
      k := k + 1;
    }
    if missingReqExt {
      return Ok(Candidate(index, LongLongMin, false));
    }
    // 3) queue families
    var ok, qfi := ProbeQueueFamilies(dev.queueFamilies, hasSurface, policy);
    if !ok {
      return Ok(Candidate(index, LongLongMin, false));
    }
    if !qfi.IsValid(policy.requireSwapChain) {
      return Ok(Candidate(index, LongLongMin, false));
    }
    // 4) score
    var score := 0;
    var rank := Rank(policy.preferredTypes, dev.deviceType);
    score := score + (1000 - rank * 100);
    score := score + policy.weightMaxImage2D * dev.maxImageDimension2D;
    var bestHeap := LargestDeviceLocalHeap(dev.heaps);
    var vramMB := bestHeap / MiB;
    score := score + policy.weightVRam * vramMB;
    return Ok(Candidate(index, score, true));
  }

  /** PickBestDeviceIndex: score every device in order, then keep the first
      accepted candidate whose score strictly beats the best so far. */
  method PickBestDeviceIndex(policy: Policy, devices: seq<Device>, hasSurface: bool)
    returns (r: Result<nat, SelectionError>)
    ensures r == SelectSpec(policy, devices, hasSurface)
  {
    if |devices| == 0 {
      return Err(NoDevicesToScore);
    }
    var scored := ScoreAll(policy, devices, hasSurface);
    if scored.Err? {
      return Err(scored.error);
    }
    var cands := scored.value;
    var bestIdx := ArgMax(cands);
    if bestIdx < 0 {
      return Err(NoSuitableDevice);
    }
    return Ok(bestIdx);
  }

  /** The scoring loop: one candidate per device, in order, stopping at the
      first exception. */
  method ScoreAll(policy: Policy, devices: seq<Device>, hasSurface: bool)
    returns (r: Result<seq<Candidate>, SelectionError>)
    ensures r == Candidates(policy, devices, hasSurface)
  {
    var cands: seq<Candidate> := [];
    var i := 0;
    while i < |devices|
      invariant 0 <= i <= |devices|
      invariant Candidates(policy, devices[..i], hasSurface) == Ok(cands)
    {
      var c := EvaluateDevice(policy, devices[i], i, hasSurface);
      CandidatesSnoc(policy, devices, hasSurface, i);
      if c.Err? {
        CandidatesFirstError(policy, devices, hasSurface, i);
        return Err(c.error);
      }
      cands := cands + [c.value];
      i := i + 1;
    }
    assert devices[..|devices|] == devices;
    return Ok(cands);
  }

  /** One more device extends the candidate list by its own verdict, or
      stops it at its exception. */
  lemma CandidatesSnoc(policy: Policy, devices: seq<Device>, hasSurface: bool, i: nat)
    requires i < |devices|
    ensures Candidates(policy, devices[..i + 1], hasSurface)
         == match Candidates(policy, devices[..i], hasSurface)
            case Err(e) => Err(e)
            case Ok(cs) =>
              match Evaluate(policy, devices[i], i, hasSurface)
              case Err(e) => Err(e)
              case Ok(v) => Ok(cs + [CandidateOf(i, v)])
  {
    assert devices[..i + 1][..i] == devices[..i];
  }

  /** The first device whose evaluation throws decides the exception of the
      whole loop. */
  lemma CandidatesFirstError(policy: Policy, devices: seq<Device>, hasSurface: bool, i: nat)
    requires i < |devices|
    requires Candidates(policy, devices[..i], hasSurface).Ok?
    requires Evaluate(policy, devices[i], i, hasSurface).Err?
    ensures Candidates(policy, devices, hasSurface) == Err(Evaluate(policy, devices[i], i, hasSurface).error)
  {
    var r := Candidates(policy, devices, hasSurface);
    forall k | 0 <= k < i
      ensures Evaluate(policy, devices[k], k, hasSurface).Ok?
    {
      assert devices[..i][k] == devices[k];
    }
    assert r.Err?;
    var j :| 0 <= j < |devices| && Evaluate(policy, devices[j], j, hasSurface) == Err(r.error)
             && forall k :: 0 <= k < j ==> Evaluate(policy, devices[k], k, hasSurface).Ok?;
    assert j == i;
  }

  /** The selection loop over `cands` (whose `idx` fields are positions):
      -1 when nothing beats LLONG_MIN. */
  method ArgMax(cands: seq<Candidate>) returns (bestIdx: int)
    requires forall j :: 0 <= j < |cands| ==> cands[j].idx == j
    ensures BestOf(cands).None? ==> bestIdx == -1
    ensures BestOf(cands).Some? ==> bestIdx == BestOf(cands).value
  {
    bestIdx := -1;
    var bestScore := LongLongMin;
    var k := 0;
    while k < |cands|
      invariant 0 <= k <= |cands|
      invariant BestOf(cands[..k]).None? ==> bestIdx == -1 && bestScore == LongLongMin
      invariant BestOf(cands[..k]).Some? ==>
                  bestIdx == BestOf(cands[..k]).value && bestScore == cands[bestIdx].score
    {
      assert cands[..k + 1][..k] == cands[..k];
      var c := cands[k];
      if c.ok && c.score > bestScore {
        bestScore := c.score;
        bestIdx := c.idx;
      }
      k := k + 1;
    }
    assert cands[..|cands|] == cands;
  }

  // ---------------------------------------------------------------------
  // Finalisation
  // ---------------------------------------------------------------------

  /** ResolveExtensions' result: every required name in policy order, then
      each optional name the device reports, in policy order; the first
      missing required name throws. */
  function ResolvedExtensions(policy: Policy, available: seq<string>): Result<seq<string>, SelectionError>
  {
    match FirstMissing(policy.requiredExtensions, available)
    case Some(n) => Err(MissingRequiredExtension(n))
    case None => Ok(policy.requiredExtensions + PresentOptionals(policy.optionalExtensions, available))
  }

  /** Every enabled name is one the device reports; the list is every
      required name in policy order, followed by the optional filter (whose
      order and multiplicity PresentOptionalsAppend and
      PresentOptionalsSingle fix). */
  lemma ResolvedExtensionsAreAvailable(policy: Policy, available: seq<string>)
    requires ResolvedExtensions(policy, available).Ok?
    ensures var enabled := ResolvedExtensions(policy, available).value;
      && enabled[..|policy.requiredExtensions|] == policy.requiredExtensions
      && enabled[|policy.requiredExtensions|..] == PresentOptionals(policy.optionalExtensions, available)
      && (forall x :: x in enabled ==> x in available)
      && (forall x :: x in policy.optionalExtensions ==> (x in enabled <==> x in available))
  {
    var enabled := ResolvedExtensions(policy, available).value;
    forall x | x in enabled ensures x in available {
      if x in policy.requiredExtensions {
        var j :| 0 <= j < |policy.requiredExtensions| && policy.requiredExtensions[j] == x;
      }
    }
    forall x | x in policy.optionalExtensions && x in available ensures x in enabled {
      assert x in PresentOptionals(policy.optionalExtensions, available);
    }
  }

  /** A device accepted by the cascade always resolves: the throw in
      ResolveExtensions cannot fire for the selected device. */
  lemma AcceptedDeviceResolves(policy: Policy, dev: Device, index: nat, hasSurface: bool)
    requires Evaluate(policy, dev, index, hasSurface).Ok? && Evaluate(policy, dev, index, hasSurface).value.Accepted?
    ensures ResolvedExtensions(policy, dev.extensions.value).Ok?
  {
  }

  /** ValidateRequiredCoreFeatures: anisotropy, geometry shader, non-solid
      fill, in that order; the first required but unsupported flag throws. */
  function ValidateCoreFeatures(required: CoreFeatures, supported: CoreFeatures): (r: Result<bool, SelectionError>)
    ensures r.Ok? <==> && (required.samplerAnisotropy ==> supported.samplerAnisotropy)
                       && (required.geometryShader ==> supported.geometryShader)
                       && (required.fillModeNonSolid ==> supported.fillModeNonSolid)
    ensures r.Ok? ==> r.value
    ensures required.samplerAnisotropy && !supported.samplerAnisotropy ==>
              r == Err(MissingCoreFeature("samplerAnisotropy"))
    ensures (required.samplerAnisotropy ==> supported.samplerAnisotropy)
            && required.geometryShader && !supported.geometryShader ==>
              r == Err(MissingCoreFeature("geometryShader"))
    ensures (required.samplerAnisotropy ==> supported.samplerAnisotropy)
            && (required.geometryShader ==> supported.geometryShader)
            && required.fillModeNonSolid && !supported.fillModeNonSolid ==>
              r == Err(MissingCoreFeature("fillModeNonSolid"))
  {
    if required.samplerAnisotropy && !supported.samplerAnisotropy then Err(MissingCoreFeature("samplerAnisotropy"))
    else if required.geometryShader && !supported.geometryShader then Err(MissingCoreFeature("geometryShader"))
    else if required.fillModeNonSolid && !supported.fillModeNonSolid then Err(MissingCoreFeature("fillModeNonSolid"))
    else Ok(true)
  }

  /** The default policy requires no core feature, so validation never
      fails under it. */
  lemma DefaultPolicyNeverFailsFeatures(supported: CoreFeatures)
    ensures ValidateCoreFeatures(DefaultPolicy().requiredCoreFeatures, supported) == Ok(true)
  {
  }
}
