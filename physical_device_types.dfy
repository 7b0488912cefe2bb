/** Value types declared by FxPhysicalDevice.h: the queue-family index
    descriptor, the selection policy with its defaults, and the record that the
    Vulkan driver reports for one physical device (the model's input in place
    of the vkGetPhysicalDevice* queries). */
module PhysicalDeviceTypes {
  import opened Wrappers

  /** VkPhysicalDeviceType. */
  datatype DeviceType = Other | IntegratedGpu | DiscreteGpu | VirtualGpu | Cpu

  /** The name every swap-chain check looks for. */
  const SwapchainExtension: string := "VK_KHR_swapchain"

  /** One queue family as the driver reports it. `presentSupported` is the
      answer of vkGetPhysicalDeviceSurfaceSupportKHR for the surface attached to
      the device object; it is only consulted when a surface is attached. */
  datatype QueueFamily = QueueFamily(graphics: bool, compute: bool, transfer: bool, presentSupported: bool)

  /** One VkMemoryHeap: its size in bytes and whether it carries
      VK_MEMORY_HEAP_DEVICE_LOCAL_BIT. */
  datatype MemoryHeap = MemoryHeap(size: nat, deviceLocal: bool)

  /** The three VkPhysicalDeviceFeatures flags the policy can require. */
  datatype CoreFeatures = CoreFeatures(samplerAnisotropy: bool, geometryShader: bool, fillModeNonSolid: bool)

  /** Everything the driver reports about one physical device: its
      VkPhysicalDevice handle and the answers of the property, extension,
      queue-family and memory queries. `extensions` is None when
      vkEnumerateDeviceExtensionProperties fails. */
  datatype Device = Device(
    handle: nat,
    deviceType: DeviceType,
    extensions: Option<seq<string>>,
    queueFamilies: seq<QueueFamily>,
    maxImageDimension2D: nat,
    heaps: seq<MemoryHeap>,
    features: CoreFeatures)

  /** FX_QUEUE_FAMILY_INDEX_DESC: four family indices, -1 meaning unassigned. */
  datatype QueueIndices = QueueIndices(graphics: int, compute: int, transfer: int, present: int)
  {
    /** Graphics must be assigned; Present too when presentation is required. */
    predicate IsValid(requirePresent: bool) {
      graphics >= 0 && !(requirePresent && present < 0)
    }
  }

  /** The default-constructed descriptor: every index unassigned. */
  function UnassignedQueues(): (q: QueueIndices)
    ensures q.graphics == -1 && q.compute == -1 && q.transfer == -1 && q.present == -1
  {
    QueueIndices(-1, -1, -1, -1)
  }

  /** FX_PD_SELECTION_POLICY. `requiredCoreFeatures` reuses the feature record:
      a true flag means the feature is required. */
  datatype Policy = Policy(
    requireSwapChain: bool,
    preferredTypes: seq<DeviceType>,
    requiredExtensions: seq<string>,
    optionalExtensions: seq<string>,
    requiredCoreFeatures: CoreFeatures,
    preferDedicatedCompute: bool,
    preferDedicatedTransfer: bool,
    weightMaxImage2D: int,
    weightVRam: int)

  /** The member initialisers of FX_PD_SELECTION_POLICY. */
  function DefaultPolicy(): Policy {
    Policy(
      requireSwapChain := true,
      preferredTypes := [DiscreteGpu, IntegratedGpu, Cpu, VirtualGpu, Other],
      requiredExtensions := [SwapchainExtension],
      optionalExtensions := [],
      requiredCoreFeatures := CoreFeatures(false, false, false),
      preferDedicatedCompute := true,
      preferDedicatedTransfer := true,
      weightMaxImage2D := 1,
      weightVRam := 1)
  }

  /** A default-constructed queue descriptor is invalid whatever the present requirement. */
  lemma UnassignedQueuesInvalid(requirePresent: bool)
    ensures !UnassignedQueues().IsValid(requirePresent)
  {
  }

  /** IsValid fails exactly when Graphics is unassigned, or Present is
      unassigned while presentation is required. */
  lemma IsValidCases(q: QueueIndices, requirePresent: bool)
    ensures !q.IsValid(requirePresent) <==> (q.graphics < 0 || (requirePresent && q.present < 0))
  {
  }

  /** The default policy ranks discrete, integrated, CPU, virtual and other
      GPUs in that order (so it accepts every device type), requires the swap chain
      and no optional extension,
      prefers dedicated queues, weighs both terms by 1 and requires no feature. */
  lemma DefaultPolicyShape()
    ensures var p := DefaultPolicy();
      && p.requireSwapChain
      && p.preferredTypes == [DiscreteGpu, IntegratedGpu, Cpu, VirtualGpu, Other]
      && (forall t: DeviceType :: t in p.preferredTypes)
      && p.optionalExtensions == []
      && p.requiredExtensions == [SwapchainExtension]
      && p.preferDedicatedCompute && p.preferDedicatedTransfer
      && p.weightMaxImage2D == 1 && p.weightVRam == 1
      && !p.requiredCoreFeatures.samplerAnisotropy
      && !p.requiredCoreFeatures.geometryShader
      && !p.requiredCoreFeatures.fillModeNonSolid
  {
    var p := DefaultPolicy();
    forall t: DeviceType ensures t in p.preferredTypes {
      match t
      case DiscreteGpu => assert p.preferredTypes[0] == t;
      case IntegratedGpu => assert p.preferredTypes[1] == t;
      case Cpu => assert p.preferredTypes[2] == t;
      case VirtualGpu => assert p.preferredTypes[3] == t;
      case Other => assert p.preferredTypes[4] == t;
    }
  }
}
