/** The free helper functions of DefineVulkan.h: the older queue-family
    finder, the device-extension and validation-layer checks, the memory-type
    search, the swap-chain format, present-mode and extent choices, and
    IsDeviceSuitable. Driver queries are inputs. */
module VulkanHelpers {
  import opened Wrappers
  import opened PhysicalDeviceTypes

  /** Fox::vkDeviceExtensions. */
  const DeviceExtensions: seq<string> := [SwapchainExtension]

  /** Fox::vkValidationLayers. */
  const ValidationLayers: seq<string> := ["VK_LAYER_KHRONOS_validation"]

  // ---------------------------------------------------------------------
  // QUEUE_FAMILY_INDEX_DESC and FindQueueFamily
  // ---------------------------------------------------------------------

  /** QUEUE_FAMILY_INDEX_DESC: two optional family indices. */
  datatype FamilyDesc = FamilyDesc(graphicsFamily: Option<nat>, presentFamily: Option<nat>)
  {
    predicate IsInitialized() {
      graphicsFamily.Some? && presentFamily.Some?
    }
  }

  /** One iteration of FindQueueFamily's loop on family `i` (before its
      early-return test): Present is overwritten while the descriptor is
      incomplete and the family can present, then Graphics likewise. */
  function FamilyStep(d: FamilyDesc, i: nat, f: QueueFamily): (r: FamilyDesc)
    ensures d.IsInitialized() ==> r == d
    ensures !d.IsInitialized() && f.presentSupported ==> r.presentFamily == Some(i)
    ensures r.presentFamily != d.presentFamily ==> r.presentFamily == Some(i) && f.presentSupported
    ensures r.graphicsFamily != d.graphicsFamily ==> r.graphicsFamily == Some(i) && f.graphics
  {
    var d1 := if !d.IsInitialized() && f.presentSupported then d.(presentFamily := Some(i)) else d;
    if f.graphics && !d1.IsInitialized() then d1.(graphicsFamily := Some(i)) else d1
  }

  /** The descriptor after running the loop body over every family. */
  function ScanFamilies(fs: seq<QueueFamily>): FamilyDesc
  {
    if |fs| == 0 then FamilyDesc(None, None)
    else FamilyStep(ScanFamilies(fs[..|fs| - 1]), |fs| - 1, fs[|fs| - 1])
  }

  /** Once the descriptor is complete no later family changes it, so the
      early return gives the same descriptor as running to the end. */
  lemma {:induction false} ScanStaysInitialized(fs: seq<QueueFamily>, n: nat)
    requires n <= |fs| && ScanFamilies(fs[..n]).IsInitialized()
    ensures ScanFamilies(fs) == ScanFamilies(fs[..n])
    decreases |fs| - n
  {
    if n < |fs| {
      assert fs[..|fs| - 1][..n] == fs[..n];
      ScanStaysInitialized(fs[..|fs| - 1], n);
    } else {
      assert fs[..n] == fs;
    }
  }

  /** Each index the finder reports names a family with that capability,
      and an index is set exactly when some family has the capability; so
      the descriptor is initialized iff some family has graphics and some
      family can present. */
  lemma {:induction false} ScanFindsCapabilities(fs: seq<QueueFamily>)
    ensures var d := ScanFamilies(fs);
      && (d.graphicsFamily.Some? ==> d.graphicsFamily.value < |fs| && fs[d.graphicsFamily.value].graphics)
      && (d.presentFamily.Some? ==> d.presentFamily.value < |fs| && fs[d.presentFamily.value].presentSupported)
      && (d.graphicsFamily.Some? <==> exists j :: 0 <= j < |fs| && fs[j].graphics)
      && (d.presentFamily.Some? <==> exists j :: 0 <= j < |fs| && fs[j].presentSupported)
      && (d.IsInitialized() <==> (exists j :: 0 <= j < |fs| && fs[j].graphics)
                                 && (exists j :: 0 <= j < |fs| && fs[j].presentSupported))
  {
    if |fs| > 0 {
      var n := |fs| - 1;
      var pre := fs[..n];
      ScanFindsCapabilities(pre);
      assert forall j :: 0 <= j < n ==> fs[j] == pre[j];
      var d := ScanFamilies(pre);
      if d.graphicsFamily.Some? {
        assert fs[d.graphicsFamily.value] == pre[d.graphicsFamily.value];
      }
      if d.presentFamily.Some? {
        assert fs[d.presentFamily.value] == pre[d.presentFamily.value];
      }
    }
  }

  /** While the descriptor stays incomplete, each reported index is the
      last family so far with that capability: every later family lacks it. */
  lemma {:induction false} ScanIncompleteIsLast(fs: seq<QueueFamily>)
    requires !ScanFamilies(fs).IsInitialized()
    ensures var d := ScanFamilies(fs);
      && (d.graphicsFamily.Some? ==> forall j :: d.graphicsFamily.value < j < |fs| ==> !fs[j].graphics)
      && (d.presentFamily.Some? ==> forall j :: d.presentFamily.value < j < |fs| ==> !fs[j].presentSupported)
  {
    if |fs| > 0 {
      var n := |fs| - 1;
      var pre := fs[..n];
      ScanIncompleteIsLast(pre);
      assert forall j :: 0 <= j < n ==> fs[j] == pre[j];
    }
  }

  /** The overwrite rule of FindQueueFamily. Let `c` be the family at which
      the descriptor first becomes complete (or |fs| when it never does).
      No family strictly between the reported graphics index and `c` has
      graphics, and no family after the reported present index, up to and
      including `c`, can present: present is overwritten by every presenting
      family up to `c`, graphics by every graphics family before `c` (and at
      `c` only when present alone did not complete the descriptor). */
  lemma {:induction false} ScanOverwriteRule(fs: seq<QueueFamily>, c: nat)
    requires c <= |fs| && !ScanFamilies(fs[..c]).IsInitialized()
    requires c < |fs| ==> ScanFamilies(fs[..c + 1]).IsInitialized()
    ensures var d := ScanFamilies(fs);
      && (d.graphicsFamily.Some? ==> forall j :: d.graphicsFamily.value < j < c ==> !fs[j].graphics)
      && (d.presentFamily.Some? ==>
            d.presentFamily.value <= c
            && forall j :: d.presentFamily.value < j <= c && j < |fs| ==> !fs[j].presentSupported)
  {
    if c == |fs| {
      assert fs[..c] == fs;
      ScanIncompleteIsLast(fs);
      ScanFindsCapabilities(fs);
    } else {
      var pre := fs[..c];
      ScanIncompleteIsLast(pre);
      ScanFindsCapabilities(pre);
      assert fs[..c + 1][..c] == pre;
      ScanStaysInitialized(fs, c + 1);
      assert forall j :: 0 <= j < c ==> fs[j] == pre[j];
    }
  }

  /** Two graphics families followed by a presenting one: graphics is
      overwritten to the second family, and present completes the
      descriptor at the third. */
  lemma ScanExampleOverwritesGraphics()
    ensures ScanFamilies([QueueFamily(true, false, false, false),
                          QueueFamily(true, false, false, false),
                          QueueFamily(false, false, false, true)])
            == FamilyDesc(Some(1), Some(2))
  {
    var g := QueueFamily(true, false, false, false);
    var p := QueueFamily(false, false, false, true);
    var fs := [g, g, p];
    assert fs[..2] == [g, g] && fs[..2][..1] == [g] && [g][..0] == [];
    assert ScanFamilies([g]) == FamilyDesc(Some(0), None);
    assert ScanFamilies([g, g]) == FamilyDesc(Some(1), None);
  }

  /** FindQueueFamily: scan the families, returning as soon as both indices
      are set; the result may be partial when the loop runs out. */
  method FindQueueFamily(fs: seq<QueueFamily>) returns (desc: FamilyDesc)
    ensures desc == ScanFamilies(fs)
  {
    desc := FamilyDesc(None, None);
    var queueIndex := 0;
    while queueIndex < |fs|
      invariant 0 <= queueIndex <= |fs|
      invariant desc == ScanFamilies(fs[..queueIndex])
    {
      assert fs[..queueIndex + 1][..queueIndex] == fs[..queueIndex];
      var f := fs[queueIndex];
      if !desc.IsInitialized() && f.presentSupported {
        desc := desc.(presentFamily := Some(queueIndex));
      }
      if f.graphics && !desc.IsInitialized() {
        desc := desc.(graphicsFamily := Some(queueIndex));
      }
      if desc.IsInitialized() {
        ScanStaysInitialized(fs, queueIndex + 1);
        return;
      }
      queueIndex := queueIndex + 1;
    }
    assert fs[..|fs|] == fs;
  }

  // ---------------------------------------------------------------------
  // Device-extension check
  // ---------------------------------------------------------------------

  /** The names of a list as a std::set<std::string>. */
  function NameSet(names: seq<string>): set<string> {
    set n | n in names
  }

  /** The set-erase loop: what remains of `pending` after erasing every
      name the device reports. */
  function Remaining(pending: set<string>, exts: seq<string>): (r: set<string>)
    ensures forall x :: x in r <==> x in pending && x !in exts
  {
    if |exts| == 0 then pending
    else Remaining(pending - {exts[0]}, exts[1..])
  }

  /** CheckDeviceExtensionSupport as written: the pending set is filled
      from the device's own extension names, so erasing them empties it and
      the function succeeds for every device. */
  method CheckDeviceExtensionSupportAsWritten(exts: seq<string>) returns (ok: bool)
    ensures ok
  {
    var pending := NameSet(exts);
    var i := 0;
    while i < |exts|
      invariant 0 <= i <= |exts|
      invariant forall x :: x in pending <==> x in exts && x !in exts[..i]
    {
      assert forall x :: x in exts[..i + 1] <==> x in exts[..i] || x == exts[i];
      pending := pending - {exts[i]};
      i := i + 1;
    }
    assert exts[..|exts|] == exts;
    assert forall x :: x !in pending;
    ok := pending == {};
  }

  /** A device with no swap-chain extension at all passes the function as
      written, although the function exists to demand it. */
  lemma AsWrittenAcceptsDeviceWithoutSwapchain()
    ensures var exts := ["VK_KHR_maintenance1"];
      && SwapchainExtension !in exts
      && Remaining(NameSet(exts), exts) == {}
      && Remaining(NameSet(DeviceExtensions), exts) != {}
  {
    var exts := ["VK_KHR_maintenance1"];
    assert SwapchainExtension in Remaining(NameSet(DeviceExtensions), exts);
  }

  /** CheckDeviceExtensionSupport as intended: start from the required
      names (Fox::vkDeviceExtensions) and erase those the device reports. */
  method CheckDeviceExtensionSupport(exts: seq<string>) returns (ok: bool)
    ensures ok <==> forall j :: 0 <= j < |DeviceExtensions| ==> DeviceExtensions[j] in exts
  {
    var pending: set<string> := NameSet(DeviceExtensions);
    var i := 0;
    while i < |exts|
      invariant 0 <= i <= |exts|
      invariant pending == Remaining(NameSet(DeviceExtensions), exts[..i])
    {
      assert forall x :: x in exts[..i + 1] <==> x in exts[..i] || x == exts[i];
      pending := pending - {exts[i]};
      i := i + 1;
    }
    assert exts[..|exts|] == exts;
    ok := pending == {};
    if !ok {
      var x :| x in pending;
    }
  }

  // ---------------------------------------------------------------------
  // Memory-type search
  // ---------------------------------------------------------------------

  /** Memory type `i` is allowed by the filter's bit `i` and carries every
      requested property flag. */
  predicate MemoryTypeMatches(filter: bv32, properties: bv32, types: seq<bv32>, i: nat)
    requires i < |types| <= 32
  {
    filter & ((1 as bv32) << i) != 0 && types[i] & properties == properties
  }

  /** The first matching memory type at or after `from`. */
  function FindMemoryTypeFrom(filter: bv32, properties: bv32, types: seq<bv32>, from: nat): (r: Option<nat>)
    requires from <= |types| <= 32
    ensures r.Some? ==> from <= r.value < |types| && MemoryTypeMatches(filter, properties, types, r.value)
    ensures r.Some? ==> forall j :: from <= j < r.value ==> !MemoryTypeMatches(filter, properties, types, j)
    ensures r.None? ==> forall j :: from <= j < |types| ==> !MemoryTypeMatches(filter, properties, types, j)
    decreases |types| - from
  {
    if from == |types| then None
    else if MemoryTypeMatches(filter, properties, types, from) then Some(from)
    else FindMemoryTypeFrom(filter, properties, types, from + 1)
  }

  datatype MemoryError = NoMatchingMemoryType

  /** FindMemoryType: the lowest type index whose filter bit is set and
      whose flags include `properties`; none throws (release build).
      `types` holds memoryTypes[i].propertyFlags for i < memoryTypeCount,
      at most VK_MAX_MEMORY_TYPES (32). */
  function FindMemoryType(filter: bv32, properties: bv32, types: seq<bv32>): (r: Result<nat, MemoryError>)
    requires |types| <= 32
    ensures r.Ok? ==> r.value < |types| && MemoryTypeMatches(filter, properties, types, r.value)
                      && forall j :: 0 <= j < r.value ==> !MemoryTypeMatches(filter, properties, types, j)
    ensures r.Err? <==> forall j :: 0 <= j < |types| ==> !MemoryTypeMatches(filter, properties, types, j)
  {
    match FindMemoryTypeFrom(filter, properties, types, 0)
    case Some(i) => Ok(i)
    case None => Err(NoMatchingMemoryType)
  }

  /** A filter without bit `i` never yields type `i`, whatever its flags. */
  lemma FilterExcludes(filter: bv32, properties: bv32, types: seq<bv32>, i: nat)
    requires i < |types| <= 32 && filter & ((1 as bv32) << i) == 0
    ensures FindMemoryType(filter, properties, types) != Ok(i)
  {
  }

  // ---------------------------------------------------------------------
  // Swap-chain choices
  // ---------------------------------------------------------------------

  /** VkFormat / VkColorSpaceKHR / VkPresentModeKHR values used here. */
  const FormatB8G8R8A8Srgb: nat := 50
  const ColorSpaceSrgbNonlinear: nat := 0
  const PresentModeMailbox: nat := 1
  const PresentModeFifo: nat := 2

  datatype SurfaceFormat = SurfaceFormat(format: nat, colorSpace: nat)

  const PreferredFormat: SurfaceFormat := SurfaceFormat(FormatB8G8R8A8Srgb, ColorSpaceSrgbNonlinear)

  /** SelectSwapChainFormat: the preferred sRGB format if listed, else the
      first format; the list must not be empty (formats[0]). */
  function SelectSwapChainFormat(formats: seq<SurfaceFormat>): (r: SurfaceFormat)
    requires |formats| > 0
    ensures r in formats
    ensures PreferredFormat in formats ==> r == PreferredFormat
    ensures PreferredFormat !in formats ==> r == formats[0]
  {
    if formats[0] == PreferredFormat then formats[0]
    else if |formats| == 1 then formats[0]
    else
      var rest := SelectSwapChainFormat(formats[1..]);
      assert PreferredFormat in formats ==> PreferredFormat in formats[1..];
      if rest == PreferredFormat then rest else formats[0]
  }

  /** SelectSwapChainPresentMode: MAILBOX when listed, FIFO otherwise. */
  function SelectSwapChainPresentMode(modes: seq<nat>): (r: nat)
    ensures r == PresentModeMailbox <==> PresentModeMailbox in modes
    ensures r == PresentModeMailbox || r == PresentModeFifo
  {
    if |modes| == 0 then PresentModeFifo
    else if modes[0] == PresentModeMailbox then PresentModeMailbox
    else SelectSwapChainPresentMode(modes[1..])
  }

  /** FIFO is returned even when the surface does not list it. */
  lemma FifoWithoutListing()
    ensures SelectSwapChainPresentMode([]) == PresentModeFifo
    ensures SelectSwapChainPresentMode([0]) == PresentModeFifo
  {
  }

  const UInt32Max: nat := 0xFFFF_FFFF

  datatype Extent = Extent(width: nat, height: nat)

  /** The VkSurfaceCapabilitiesKHR fields the extent choice reads. */
  datatype SurfaceCapabilities = SurfaceCapabilities(currentExtent: Extent, minImageExtent: Extent, maxImageExtent: Extent)

  /** std::clamp(v, lo, hi): `v < lo ? lo : hi < v ? hi : v`. */
  function Clamp(v: nat, lo: nat, hi: nat): (r: nat)
    ensures lo <= hi ==> lo <= r <= hi
    ensures v < lo ==> r == lo
    ensures lo <= v && hi < v ==> r == hi
    ensures lo <= v <= hi ==> r == v
  {
    if v < lo then lo else if hi < v then hi else v
  }

  /** SelectSwapChainExtent: the current extent unless its width is the
      UINT32_MAX marker, else the window size clamped per axis. */
  function SelectSwapChainExtent(caps: SurfaceCapabilities, window: Extent): (e: Extent)
    ensures caps.currentExtent.width != UInt32Max ==> e == caps.currentExtent
    ensures caps.currentExtent.width == UInt32Max ==>
      && e.width == Clamp(window.width, caps.minImageExtent.width, caps.maxImageExtent.width)
      && e.height == Clamp(window.height, caps.minImageExtent.height, caps.maxImageExtent.height)
  {
    if caps.currentExtent.width != UInt32Max then caps.currentExtent
    else Extent(Clamp(window.width, caps.minImageExtent.width, caps.maxImageExtent.width),
                Clamp(window.height, caps.minImageExtent.height, caps.maxImageExtent.height))
  }

  /** With the marker and ordered bounds the chosen extent lies within the
      bounds: a window size already within them is kept, one below the
      minimum becomes the minimum and one above the maximum the maximum. */
  lemma ExtentWithinBounds(caps: SurfaceCapabilities, window: Extent)
    requires caps.currentExtent.width == UInt32Max
    requires caps.minImageExtent.width <= caps.maxImageExtent.width
    requires caps.minImageExtent.height <= caps.maxImageExtent.height
    ensures var e := SelectSwapChainExtent(caps, window);
      && caps.minImageExtent.width <= e.width <= caps.maxImageExtent.width
      && caps.minImageExtent.height <= e.height <= caps.maxImageExtent.height
      && (caps.minImageExtent.width <= window.width <= caps.maxImageExtent.width ==> e.width == window.width)
      && (caps.minImageExtent.height <= window.height <= caps.maxImageExtent.height ==> e.height == window.height)
      && (window.width < caps.minImageExtent.width ==> e.width == caps.minImageExtent.width)
      && (window.height < caps.minImageExtent.height ==> e.height == caps.minImageExtent.height)
      && (caps.maxImageExtent.width < window.width ==> e.width == caps.maxImageExtent.width)
      && (caps.maxImageExtent.height < window.height ==> e.height == caps.maxImageExtent.height)
  {
  }

  /** SWAP_CHAIN_SUPPORT_DESC (capabilities omitted: nothing here reads them). */
  datatype SwapChainSupport = SwapChainSupport(formats: seq<SurfaceFormat>, presentModes: seq<nat>)
  {
    predicate IsInitialized() {
      |formats| > 0 && |presentModes| > 0
    }
  }

  // ---------------------------------------------------------------------
  // Layers and suitability
  // ---------------------------------------------------------------------

  /** CheckValidationLayerSupport: every name of Fox::vkValidationLayers
      must be among the available layers (exact comparison). */
  method CheckValidationLayerSupport(available: seq<string>) returns (ok: bool)
    ensures ok <==> forall j :: 0 <= j < |ValidationLayers| ==> ValidationLayers[j] in available
  {
    var l := 0;
    while l < |ValidationLayers|
      invariant 0 <= l <= |ValidationLayers|
      invariant forall j :: 0 <= j < l ==> ValidationLayers[j] in available
    {
      var layerFound := false;
      var a := 0;
      while a < |available|
        invariant 0 <= a <= |available|
        invariant layerFound <==> ValidationLayers[l] in available[..a]
      {
        if ValidationLayers[l] == available[a] {
          layerFound := true;
          break;
        }
        a := a + 1;
      }
      assert available[..|available|] == available;
      if !layerFound {
        return false;
      }
      l := l + 1;
    }
    return true;
  }

  /** The verdict IsDeviceSuitable returns, given the extension check's
      answer: complete queue descriptor, the extension answer, and a
      non-empty format and present-mode list. */
  predicate SuitableWith(fs: seq<QueueFamily>, support: SwapChainSupport, extensionFound: bool) {
    && (exists j :: 0 <= j < |fs| && fs[j].graphics)
    && (exists j :: 0 <= j < |fs| && fs[j].presentSupported)
    && extensionFound
    && support.IsInitialized()
  }

  /** IsDeviceSuitable as written: the extension check it calls is the
      always-true one, so the device's extension list has no say and only
      the queues and the swap-chain support decide. `support` is the
      driver's answer for the surface, queried only after the extension
      check passes. */
  method IsDeviceSuitable(fs: seq<QueueFamily>, exts: seq<string>, support: SwapChainSupport) returns (ok: bool)
    ensures ok <==> && (exists j :: 0 <= j < |fs| && fs[j].graphics)
                    && (exists j :: 0 <= j < |fs| && fs[j].presentSupported)
                    && |support.formats| > 0 && |support.presentModes| > 0
    ensures ok == SuitableWith(fs, support, true)
  {
    var desc := FindQueueFamily(fs);
    ScanFindsCapabilities(fs);
    var extensionFound := CheckDeviceExtensionSupportAsWritten(exts);
    var swapChainAdequate := false;
    if extensionFound {
      swapChainAdequate := support.IsInitialized();
    }
    ok := desc.IsInitialized() && swapChainAdequate && extensionFound;
  }

  /** IsDeviceSuitable over the corrected extension check: a device must
      also report VK_KHR_swapchain. */
  method IsDeviceSuitableCorrected(fs: seq<QueueFamily>, exts: seq<string>, support: SwapChainSupport) returns (ok: bool)
    ensures ok <==> && (exists j :: 0 <= j < |fs| && fs[j].graphics)
                    && (exists j :: 0 <= j < |fs| && fs[j].presentSupported)
                    && SwapchainExtension in exts
                    && |support.formats| > 0 && |support.presentModes| > 0
    ensures ok == SuitableWith(fs, support, SwapchainExtension in exts)
  {
    var desc := FindQueueFamily(fs);
    ScanFindsCapabilities(fs);
    var extensionFound := CheckDeviceExtensionSupport(exts);
    assert extensionFound <==> DeviceExtensions[0] in exts;
    var swapChainAdequate := false;
    if extensionFound {
      swapChainAdequate := support.IsInitialized();
    }
    ok := desc.IsInitialized() && swapChainAdequate && extensionFound;
  }

  /** A device with a graphics-and-present family and usable swap-chain
      support, but reporting only VK_KHR_maintenance1, is suitable as written
      and unsuitable once the extension check is corrected. */
  lemma AsWrittenSuitableWithoutSwapchain()
    ensures var fs := [QueueFamily(true, false, false, true)];
      var exts := ["VK_KHR_maintenance1"];
      var support := SwapChainSupport([PreferredFormat], [PresentModeFifo]);
      && SuitableWith(fs, support, true)
      && !SuitableWith(fs, support, SwapchainExtension in exts)
  {
    var fs := [QueueFamily(true, false, false, true)];
    assert fs[0].graphics && fs[0].presentSupported;
    assert SwapchainExtension != "VK_KHR_maintenance1";
  }
}
