/** The FxPhysicalDevice object (FxPhysicalDevice.h/.cpp): its member state,
    the configuration calls, the Init step sequence, Release and the move
    operations. The Vulkan driver is an input: `enumeration` is what
    vkEnumeratePhysicalDevices reports (None when a call fails), and each
    Device record carries the answers of the per-device queries. */
module PhysicalDevice {
  import opened Wrappers
  import opened PhysicalDeviceTypes
  import opened DeviceSelection
  import opened FxMemory

  /** The parts of VkPhysicalDeviceProperties the model keeps; the
      value-initialised struct is type OTHER (0) with zero limits. */
  datatype Properties = Properties(deviceType: DeviceType, maxImageDimension2D: nat)

  const NoProperties: Properties := Properties(Other, 0)

  /** Every member of FxPhysicalDevice as a value. `instance` is the
      attached FxInstance, represented by the VkInstance handle it reports
      (None for nullptr). `features` is m_features2.features; the chained
      1.1/1.2/1.3 structs hold no data the model reads. */
  datatype DeviceState = DeviceState(
    instance: Option<nat>,
    surface: PtrState,
    policy: Policy,
    physicalDevice: PtrState,
    props: Properties,
    memoryHeaps: seq<MemoryHeap>,
    features: CoreFeatures,
    queues: QueueIndices,
    deviceExtensions: seq<string>,
    enabledExtensions: seq<string>,
    allDevices: seq<Device>)

  /** Release: both handles reset, every cache back to its default, policy
      and attached instance kept. */
  function Released(s: DeviceState): DeviceState {
    s.(surface := Empty, physicalDevice := Empty, props := NoProperties, memoryHeaps := [],
       features := CoreFeatures(false, false, false), queues := UnassignedQueues(),
       deviceExtensions := [], enabledExtensions := [], allDevices := [])
  }

  /** Release twice leaves the state of one Release, the second call fires
      no deleter, and the policy and attached instance survive it. */
  lemma ReleaseIdempotent(s: DeviceState)
    ensures Released(Released(s)) == Released(s)
    ensures Fired(Released(s).surface) == [] && Fired(Released(s).physicalDevice) == []
    ensures Released(s).policy == s.policy && Released(s).instance == s.instance
    ensures !Released(s).queues.IsValid(false)
  {
  }

  /** The state a moved-from object is left in: released, with no instance. */
  function MovedFrom(s: DeviceState): DeviceState {
    Released(s).(instance := None)
  }

  /** The present-support query of Init's last step on family `index`. */
  predicate PresentSupportedAt(fs: seq<QueueFamily>, index: int) {
    0 <= index < |fs| && fs[index].presentSupported
  }

  /** The state ResolveExtensions leaves: the full list on success, the
      required names pushed before the throw otherwise. */
  function EnabledAfterResolve(policy: Policy, available: seq<string>): seq<string> {
    match ResolvedExtensions(policy, available)
    case Ok(list) => list
    case Err(_) => AvailablePrefix(policy.requiredExtensions, available)
  }

  /** Init as a function of the state before the call and of the driver's
      answers: the result (`Ok(false)` for `return false`, `Err` for a
      throw) and the state after it, step by step as the source runs. */
  function InitRun(s: DeviceState, enumeration: Option<seq<Device>>): (Result<bool, SelectionError>, DeviceState)
  {
    var hasSurface := s.surface.handle != 0;
    if s.instance.None? then (Ok(false), s)
    else if s.policy.requireSwapChain && !hasSurface then (Ok(false), s)
    else if enumeration.None? || |enumeration.value| == 0 then (Ok(false), s)
    else
      var s1 := s.(allDevices := enumeration.value);
      match SelectSpec(s.policy, s1.allDevices, hasSurface)
      case Err(e) => (Err(e), s1)
      case Ok(best) =>
        var dev := s1.allDevices[best];
        AfterPick(s1.(physicalDevice := PtrState(dev.handle, None)), dev)
  }

  /** The steps of Init after `dev` has been picked and its handle stored:
      cache, queues, extensions, core features, present support. */
  function AfterPick(s2: DeviceState, dev: Device): (Result<bool, SelectionError>, DeviceState)
  {
    var hasSurface := s2.surface.handle != 0;
    if dev.handle == 0 then (Err(NoPhysicalDeviceSelected), s2)
    else
      var s3 := s2.(props := Properties(dev.deviceType, dev.maxImageDimension2D),
                    memoryHeaps := dev.heaps, features := dev.features,
                    deviceExtensions := if dev.extensions.Some? then dev.extensions.value else []);
      if dev.extensions.None? then (Err(SelectedExtensionsUnavailable), s3)
      else
        var probe := ProbeSpec(dev.queueFamilies, hasSurface, s2.policy);
        if !probe.ok || !probe.queues.IsValid(s2.policy.requireSwapChain) then (Err(QueueFamiliesNotSatisfied), s3)
        else
          var s4 := s3.(queues := probe.queues);
          var s5 := s4.(enabledExtensions := EnabledAfterResolve(s2.policy, s4.deviceExtensions));
          match ResolvedExtensions(s2.policy, s4.deviceExtensions)
          case Err(e) => (Err(e), s5)
          case Ok(_) =>
            match ValidateCoreFeatures(s2.policy.requiredCoreFeatures, s5.features)
            case Err(e) => (Err(e), s5)
            case Ok(_) =>
              var q := s5.queues;
              var qIndex := if q.present >= 0 then q.present else q.graphics;
              if s2.policy.requireSwapChain && hasSurface && !PresentSupportedAt(dev.queueFamilies, qIndex)
              then (Ok(false), s5)
              else (Ok(true), s5)
  }

  /** For an accepted device the steps after the pick can only fail on a
      missing core feature or, as a `false` return, when the swap chain is
      required and no family of the device can present. */
  lemma AfterPickOutcome(s2: DeviceState, dev: Device, index: nat)
    requires dev.handle != 0
    requires var v := Evaluate(s2.policy, dev, index, s2.surface.handle != 0); v.Ok? && v.value.Accepted?
    ensures var (r, _) := AfterPick(s2, dev);
      && (r == Ok(true) <==>
            && ValidateCoreFeatures(s2.policy.requiredCoreFeatures, dev.features).Ok?
            && (s2.policy.requireSwapChain && s2.surface.handle != 0 ==>
                  exists i :: 0 <= i < |dev.queueFamilies| && dev.queueFamilies[i].presentSupported))
      && (r.Err? ==> r.error.MissingCoreFeature?)
  {
    var hasSurface := s2.surface.handle != 0;
    AcceptedIff(s2.policy, dev, index, hasSurface);
    AcceptedDeviceResolves(s2.policy, dev, index, hasSurface);
    ProbeSucceedsIffGraphics(dev.queueFamilies, hasSurface, s2.policy);
    ProbeRoles(dev.queueFamilies, hasSurface, s2.policy);
    var fs := dev.queueFamilies;
    if s2.policy.requireSwapChain && hasSurface {
      var p := FirstServing(fs, Present);
      if p >= 0 {
        assert fs[p].presentSupported;
      }
    }
  }

  /** Init's outcome. It returns true exactly when an instance is attached,
      a surface exists if the swap chain is required, the driver lists some
      device, the selection picks one, that device has every required core
      feature, and (with the swap chain required) some family can present.
      The queue-family and extension throws, and the extension
      re-enumeration throw, can never fire for the picked device; the only
      throws are the selection's own and the feature check's. */
  lemma InitOutcome(s: DeviceState, enumeration: Option<seq<Device>>)
    requires enumeration.Some? ==> forall j :: 0 <= j < |enumeration.value| ==> enumeration.value[j].handle != 0
    ensures var (r, _) := InitRun(s, enumeration);
      var hasSurface := s.surface.handle != 0;
      && (r == Ok(true) <==>
            && s.instance.Some?
            && (s.policy.requireSwapChain ==> hasSurface)
            && enumeration.Some? && |enumeration.value| > 0
            && SelectSpec(s.policy, enumeration.value, hasSurface).Ok?
            && var dev := enumeration.value[SelectSpec(s.policy, enumeration.value, hasSurface).value];
               && ValidateCoreFeatures(s.policy.requiredCoreFeatures, dev.features).Ok?
               && (s.policy.requireSwapChain ==>
                     exists i :: 0 <= i < |dev.queueFamilies| && dev.queueFamilies[i].presentSupported))
      && (r.Err? ==> r.error.NoSuitableDevice? || r.error.ExtensionEnumerationFailed? || r.error.MissingCoreFeature?)
  {
    var hasSurface := s.surface.handle != 0;
    if s.instance.Some? && !(s.policy.requireSwapChain && !hasSurface)
       && enumeration.Some? && |enumeration.value| > 0 {
      var devices := enumeration.value;
      SelectionFailures(s.policy, devices, hasSurface);
      var c := Candidates(s.policy, devices, hasSurface);
      if c.Err? {
        var j :| 0 <= j < |devices| && Evaluate(s.policy, devices[j], j, hasSurface) == Err(c.error);
      }
      if SelectSpec(s.policy, devices, hasSurface).Ok? {
        var best := SelectSpec(s.policy, devices, hasSurface).value;
        SelectionIsFirstArgMax(s.policy, devices, hasSurface);
        var s1 := s.(allDevices := devices);
        AfterPickOutcome(s1.(physicalDevice := PtrState(devices[best].handle, None)), devices[best], best);
      }
    }
  }

  /** The required-name loop of ResolveExtensions: push each required name
      in order, stopping at the first one the device lacks. */
  method PushRequired(required: seq<string>, available: seq<string>)
    returns (missing: Option<string>, pushed: seq<string>)
    ensures missing == FirstMissing(required, available)
    ensures pushed == AvailablePrefix(required, available)
  {
    pushed := [];
    var k := 0;
    while k < |required|
      invariant 0 <= k <= |required|
      invariant forall j :: 0 <= j < k ==> required[j] in available
      invariant pushed == required[..k]
    {
      if !HasExt(available, required[k]) {
        FirstMissingAt(required, available, k);
        AvailablePrefixAt(required, available, k);
        return Some(required[k]), pushed;
      }
      pushed := pushed + [required[k]];
      k := k + 1;
    }
    AvailablePrefixAt(required, available, |required|);
    assert required[..|required|] == required;
    return None, pushed;
  }

  /** The optional-name loop of ResolveExtensions: push each optional name
      the device reports, in policy order. */
  method PushOptional(optional: seq<string>, available: seq<string>) returns (pushed: seq<string>)
    ensures pushed == PresentOptionals(optional, available)
  {
    pushed := [];
    var m := 0;
    while m < |optional|
      invariant 0 <= m <= |optional|
      invariant pushed == PresentOptionals(optional[..m], available)
    {
      assert optional[..m + 1][..m] == optional[..m];
      if HasExt(available, optional[m]) {
        pushed := pushed + [optional[m]];
      }
      m := m + 1;
    }
    assert optional[..|optional|] == optional;
  }

  class FxPhysicalDevice {
    var instance: Option<nat>
    const surface: FxPtr
    var policy: Policy
    const physicalDevice: FxPtr
    var props: Properties
    var memoryHeaps: seq<MemoryHeap>
    var features: CoreFeatures
    var queues: QueueIndices
    var deviceExtensions: seq<string>
    var enabledExtensions: seq<string>
    var allDevices: seq<Device>

    /** The two handle owners are distinct sub-objects, and the physical
      device handle never carries a deleter. */
    ghost predicate Valid()
      reads this, physicalDevice
    {
      surface != physicalDevice && physicalDevice.destructor.None?
    }

    function Snapshot(): DeviceState
      reads this, surface, physicalDevice
    {
      DeviceState(instance, surface.State(), policy, physicalDevice.State(), props, memoryHeaps,
                  features, queues, deviceExtensions, enabledExtensions, allDevices)
    }

    /** FxPhysicalDevice() = default. */
    constructor ()
      ensures Valid() && fresh(surface) && fresh(physicalDevice)
      ensures Snapshot() == Released(Snapshot()).(instance := None, policy := DefaultPolicy())
      ensures surface.destroyed == [] && physicalDevice.destroyed == []
    {
      instance := None;
      surface := new FxPtr();
      policy := DefaultPolicy();
      physicalDevice := new FxPtr();
      props := NoProperties;
      memoryHeaps := [];
      features := CoreFeatures(false, false, false);
      queues := UnassignedQueues();
      deviceExtensions := [];
      enabledExtensions := [];
      allDevices := [];
    }

    /** Describe: replace the policy, nothing else. */
    method Describe(desc: Policy)
      modifies this
      ensures Snapshot() == old(Snapshot()).(policy := desc)
    {
      policy := desc;
    }

    /** AttachInstance: store the instance; a non-null surface is adopted
      with a deleter that captured the instance handle, releasing the
      previous surface. */
    method AttachInstance(instanceHandle: nat, surfaceHandle: nat)
      requires Valid()
      modifies this, surface
      ensures Valid()
      ensures surfaceHandle == 0 ==>
        Snapshot() == old(Snapshot()).(instance := Some(instanceHandle))
        && surface.destroyed == old(surface.destroyed)
      ensures surfaceHandle != 0 ==>
        Snapshot() == old(Snapshot()).(instance := Some(instanceHandle),
                                       surface := PtrState(surfaceHandle, Some(Deleter(instanceHandle))))
        && surface.destroyed == old(surface.destroyed) + Fired(old(surface.State()))
    {
      instance := Some(instanceHandle);
      if surfaceHandle != 0 {
        surface.Reset(surfaceHandle, Some(Deleter(instanceHandle)));
      }
    }

    /** DetachInstance: forget the instance; the surface deleter keeps the
      handle it captured. */
    method DetachInstance()
      modifies this
      ensures Snapshot() == old(Snapshot()).(instance := None)
    {
      instance := None;
    }

    /** SetSurface: adopt `surfaceHandle` (null included) with a deleter that
      captures the current instance handle, or VK_NULL_HANDLE without one. */
    method SetSurface(surfaceHandle: nat)
      requires Valid()
      modifies surface
      ensures Valid()
      ensures Snapshot() == old(Snapshot()).(surface := PtrState(surfaceHandle,
                Some(Deleter(if instance.Some? then instance.value else 0))))
      ensures surface.destroyed == old(surface.destroyed) + Fired(old(surface.State()))
    {
      var instHandle := if instance.Some? then instance.value else 0;
      surface.Reset(surfaceHandle, Some(Deleter(instHandle)));
    }

    /** EnumeratePhysicalDevices: fails without an instance, on a failing
      driver call or on an empty list; otherwise stores the list. */
    method EnumeratePhysicalDevices(enumeration: Option<seq<Device>>) returns (ok: bool)
      modifies this
      ensures ok <==> instance.Some? && enumeration.Some? && |enumeration.value| > 0
      ensures ok ==> Snapshot() == old(Snapshot()).(allDevices := enumeration.value)
      ensures !ok ==> Snapshot() == old(Snapshot())
    {
      if instance.None? {
        return false;
      }
      if enumeration.None? || |enumeration.value| == 0 {
        return false;
      }
      allDevices := enumeration.value;
      return true;
    }

    /** CacheDeviceBasics for the driver's record `dev` of the held device:
      throws without a device; copies properties, memory and features, then
      re-enumerates the extensions (cleared first, empty after a failure). */
    method CacheDeviceBasics(dev: Device) returns (r: Result<bool, SelectionError>)
      requires physicalDevice.handle == dev.handle
      modifies this
      ensures physicalDevice.handle == 0 ==> r == Err(NoPhysicalDeviceSelected) && Snapshot() == old(Snapshot())
      ensures physicalDevice.handle != 0 ==>
        && r == (if dev.extensions.Some? then Ok(true) else Err(SelectedExtensionsUnavailable))
        && Snapshot() == old(Snapshot()).(props := Properties(dev.deviceType, dev.maxImageDimension2D),
                                          memoryHeaps := dev.heaps, features := dev.features,
                                          deviceExtensions := if dev.extensions.Some? then dev.extensions.value else [])
    {
      if !physicalDevice.IsValid() {
        return Err(NoPhysicalDeviceSelected);
      }
      props := Properties(dev.deviceType, dev.maxImageDimension2D);
      memoryHeaps := dev.heaps;
      features := dev.features;
      deviceExtensions := [];
      if dev.extensions.None? {
        return Err(SelectedExtensionsUnavailable);
      }
      deviceExtensions := dev.extensions.value;
      return Ok(true);
    }

    /** FindQueueFamilies for the held device: throws without a device or
      when the probe fails; otherwise stores the probe's descriptor. */
    method FindQueueFamilies(dev: Device) returns (r: Result<bool, SelectionError>)
      requires physicalDevice.handle == dev.handle
      modifies this
      ensures var probe := ProbeSpec(dev.queueFamilies, surface.handle != 0, policy);
        if physicalDevice.handle == 0 then r == Err(NoPhysicalDeviceSelected) && Snapshot() == old(Snapshot())
        else if !probe.ok || !probe.queues.IsValid(policy.requireSwapChain) then
          r == Err(QueueFamiliesNotSatisfied) && Snapshot() == old(Snapshot())
        else r == Ok(true) && Snapshot() == old(Snapshot()).(queues := probe.queues)
    {
      if !physicalDevice.IsValid() {
        return Err(NoPhysicalDeviceSelected);
      }
      var ok, qfi := ProbeQueueFamilies(dev.queueFamilies, surface.Get() != 0, policy);
      if !ok || !qfi.IsValid(policy.requireSwapChain) {
        return Err(QueueFamiliesNotSatisfied);
      }
      queues := qfi;
      return Ok(true);
    }

    /** ResolveExtensions: clear the enabled list, push every required name
      (throwing at the first one the device lacks), then every optional name
      the device reports. */
    method ResolveExtensions() returns (r: Result<bool, SelectionError>)
      modifies this
      ensures r == (match ResolvedExtensions(policy, deviceExtensions)
                    case Ok(_) => Ok(true)
                    case Err(e) => Err(e))
      ensures Snapshot() == old(Snapshot()).(enabledExtensions := EnabledAfterResolve(policy, deviceExtensions))
    {
      var missing, pushed := PushRequired(policy.requiredExtensions, deviceExtensions);
      if missing.Some? {
        enabledExtensions := pushed;
        return Err(MissingRequiredExtension(missing.value));
      }
      var optional := PushOptional(policy.optionalExtensions, deviceExtensions);
      enabledExtensions := pushed + optional;
      return Ok(true);
    }

    /** ValidateRequiredCoreFeatures on the cached features. */
    method ValidateRequiredCoreFeatures() returns (r: Result<bool, SelectionError>)
      ensures r == ValidateCoreFeatures(policy.requiredCoreFeatures, features)
    {
      if policy.requiredCoreFeatures.samplerAnisotropy && !features.samplerAnisotropy {
        return Err(MissingCoreFeature("samplerAnisotropy"));
      }
      if policy.requiredCoreFeatures.geometryShader && !features.geometryShader {
        return Err(MissingCoreFeature("geometryShader"));
      }
      if policy.requiredCoreFeatures.fillModeNonSolid && !features.fillModeNonSolid {
        return Err(MissingCoreFeature("fillModeNonSolid"));
      }
      return Ok(true);
    }

    /** Init: preconditions, enumeration, selection, caching, queues,
      extensions, core features and the final present-support check. */
    method Init(enumeration: Option<seq<Device>>) returns (r: Result<bool, SelectionError>)
      requires Valid()
      modifies this, physicalDevice
      ensures Valid()
      ensures (r, Snapshot()) == InitRun(old(Snapshot()), enumeration)
      ensures surface.destroyed == old(surface.destroyed) && physicalDevice.destroyed == old(physicalDevice.destroyed)
    {
      // Preconditions
      if instance.None? {
        return Ok(false);
      }
      var surf := surface.Get();
      if policy.requireSwapChain && surf == 0 {
        return Ok(false);
      }
      // Enumerate devices
      var enumerated := EnumeratePhysicalDevices(enumeration);
      if !enumerated {
        return Ok(false);
      }
      // Pick best device
      var best := PickBestDeviceIndex(policy, allDevices, surf != 0);
      if best.Err? {
        return Err(best.error);
      }
      var dev := allDevices[best.value];
      physicalDevice.Reset(dev.handle, None);
      r := FinishInit(dev);
    }

    /** Init after the pick: cache, queues, extensions, core features and
      the final present-support check. */
    method FinishInit(dev: Device) returns (r: Result<bool, SelectionError>)
      requires Valid() && physicalDevice.handle == dev.handle
      modifies this
      ensures Valid()
      ensures (r, Snapshot()) == AfterPick(old(Snapshot()), dev)
    {
      // Cache basics
      var cached := CacheDeviceBasics(dev);
      if cached.Err? {
        return cached;
      }
      // Queues
      var found := FindQueueFamilies(dev);
      if found.Err? {
        return found;
      }
      // Extensions
      var resolved := ResolveExtensions();
      if resolved.Err? {
        return resolved;
      }
      // Core features
      var validated := ValidateRequiredCoreFeatures();
      if validated.Err? {
        return validated;
      }
      // Present support
      var surf := surface.Get();
      if policy.requireSwapChain && surf != 0 {
        var qIndex := if queues.present >= 0 then queues.present else queues.graphics;
        if !PresentSupportedAt(dev.queueFamilies, qIndex) {
          return Ok(false);
        }
      }
      return Ok(true);
    }

    /** Release (also run by the destructor): reset both handles, clear
      every cache; policy and attached instance are kept. The surface's
      deleter fires if a live surface was held. */
    method Release()
      requires Valid()
      modifies this, surface, physicalDevice
      ensures Valid()
      ensures Snapshot() == Released(old(Snapshot()))
      ensures surface.destroyed == old(surface.destroyed) + Fired(old(surface.State()))
      ensures physicalDevice.destroyed == old(physicalDevice.destroyed)
    {
      physicalDevice.Reset(0, None);
      surface.Reset(0, None);
      props := NoProperties;
      memoryHeaps := [];
      features := CoreFeatures(false, false, false);
      queues := UnassignedQueues();
      deviceExtensions := [];
      enabledExtensions := [];
      allDevices := [];
    }

    /** Move assignment: a no-op on self; otherwise release this object,
      take every member of `other`, and leave `other` released with no
      instance. Only this object's old surface can be destroyed. */
    method MoveAssign(other: FxPhysicalDevice)
      requires Valid() && other.Valid()
      requires other != this ==>
        {surface, physicalDevice} !! {other.surface, other.physicalDevice}
      modifies this, surface, physicalDevice, other, other.surface, other.physicalDevice
      ensures Valid() && other.Valid()
      ensures other == this ==> Snapshot() == old(Snapshot())
      ensures other == this ==> surface.destroyed == old(surface.destroyed)
      ensures other != this ==>
        && Snapshot() == old(other.Snapshot())
        && other.Snapshot() == MovedFrom(old(other.Snapshot()))
        && surface.destroyed == old(surface.destroyed) + Fired(old(surface.State()))
        && other.surface.destroyed == old(other.surface.destroyed)
      ensures physicalDevice.destroyed == old(physicalDevice.destroyed)
      ensures other.physicalDevice.destroyed == old(other.physicalDevice.destroyed)
    {
      if other != this {
        Release();
        TakeCachesFrom(other);
        surface.MoveAssign(other.surface);
        physicalDevice.MoveAssign(other.physicalDevice);
        other.ClearAfterMove();
      }
    }

    /** The plain member copies of move assignment. */
    method TakeCachesFrom(other: FxPhysicalDevice)
      requires other != this
      modifies this
      ensures Snapshot() == old(other.Snapshot()).(surface := old(surface.State()), physicalDevice := old(physicalDevice.State()))
    {
      instance := other.instance;
      policy := other.policy;
      deviceExtensions := other.deviceExtensions;
      enabledExtensions := other.enabledExtensions;
      allDevices := other.allDevices;
      props := other.props;
      memoryHeaps := other.memoryHeaps;
      features := other.features;
      queues := other.queues;
    }

    /** What move assignment does to the moved-from object after taking its
      members: no instance, the device handle reset, every cache cleared. */
    method ClearAfterMove()
      requires Valid()
      modifies this, physicalDevice
      ensures Valid()
      ensures Snapshot() == Released(old(Snapshot())).(instance := None, surface := old(surface.State()))
      ensures physicalDevice.destroyed == old(physicalDevice.destroyed)
    {
      instance := None;
      physicalDevice.Reset(0, None);
      props := NoProperties;
      memoryHeaps := [];
      features := CoreFeatures(false, false, false);
      queues := UnassignedQueues();
      deviceExtensions := [];
      enabledExtensions := [];
      allDevices := [];
    }
  }

  /** The move constructor: a default object move-assigned from `other`. */
  method MoveConstruct(other: FxPhysicalDevice) returns (d: FxPhysicalDevice)
    requires other.Valid()
    modifies other, other.surface, other.physicalDevice
    ensures fresh(d) && d.Valid() && other.Valid()
    ensures d.Snapshot() == old(other.Snapshot())
    ensures other.Snapshot() == MovedFrom(old(other.Snapshot()))
    ensures other.surface.destroyed == old(other.surface.destroyed)
  {
    d := new FxPhysicalDevice();
    d.MoveAssign(other);
  }
}
