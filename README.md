# FoxRenderPlayground core, modelled in Dafny

This project models the core of FoxRenderPlayground, a small Win32 + Vulkan
rendering playground written in C++. Each module covers one component:

- `PhysicalDeviceTypes`, `DeviceSelection` and `PhysicalDevice` cover
  FxPhysicalDevice. They model the selection policy and its defaults, and the
  rejection cascade and score that pick a GPU. They also model the
  queue-family probe and the extension resolution, the required-core-feature
  check, the Init sequence, Release and the move operations.
- `FxMemory` covers FxPtr, the move-only owner of a handle and its deleter.
  A ghost log records every deleter call, so the contracts can say that a
  handle is destroyed at most once.
- `VulkanHelpers` covers the free helpers of DefineVulkan.h: the older
  queue-family finder, the device-extension and validation-layer checks, the
  memory-type search, the swap-chain format, present-mode and extent
  choices, and IsDeviceSuitable.
- `Instance` covers the name matching of FxInstance: picking the instance
  extensions and layers, the lookups, and the create-info counts.
- `DependencyResolver` covers system registration, dependency lists, the
  depth-first topological sort and the OnInit/update/release loops.
- `Keyboard` and `Mouse` cover the input singletons driven by window
  messages.
- `Logging` covers the logger slot, the level labels, the tree-style scope
  prefix and the tab counter.
- `FileSystemModel` covers the file handle with its read/write mode guard,
  the length-prefixed string format and the path splitter.
- `StarMesh` covers the index topology of the test star mesh.
- `WindowSize` covers WINDOW_SIZE_DESC and its RECT conversions.
- `ObjectIds` covers the FObject and ObjectID counters.

The Vulkan driver, the Win32 API and the operating system are inputs. A
`Device` record carries what the vkGetPhysicalDevice* queries report. An
enumeration is `None` when the driver call fails. A raw-input packet, a
file's contents and what OnInit returns are parameters too. Exceptions
become `Err` results. A `bool` function that also throws returns
`Result<bool, …>`, where `Ok(false)` is the plain `return false`.

Imperative code is kept imperative, and each method is proved equal to a
specification function:

- FxPhysicalDevice, FxPtr, FxInstance, Resolver, the keyboard and mouse
  singletons, Logger, FileSystem, WINDOW_SIZE_DESC and the ID counters are
  classes whose methods update their fields.
- The scoring loop, the arg-max, the queue scans, the extension loops, the
  DFS and the star loop are methods with loop invariants.

The properties the source promises are lemmas about those specification
functions.

Where the code and its design description disagree, the model follows the
code:

- `FxPhysicalDevice::Release` resets the surface owner, which invokes the
  surface's deleter (`PhysicalDevice.FxPhysicalDevice.Release`). That deleter
  calls vkDestroySurfaceKHR only when the VkInstance handle it captured and
  the surface are both non-null. So a surface handed over by `AttachInstance`
  with a live instance is destroyed by the object. A surface given through
  `SetSurface` before any instance was attached is not: its deleter captured
  a null instance. The model logs each deleter call together with the handle
  it captured (`Deleter(tag)`, tag 0 for a null instance).
- `DFS` throws through `THROW_EXCEPTION_MSG`, which takes one argument. Under
  MSVC's traditional preprocessor (warning C4002) the node name passed after
  the format string is dropped; a conforming preprocessor rejects the call.
  The model follows the MSVC build, so the message is the text
  `Cycle Detected with {}` and names no system
  (`DependencyResolver.Resolver.Visit`).
- `FromRect(GetRect())` restores the size for every UINT, not only for sizes
  that fit in a LONG (`WindowSize.RectRoundTrip`).
- The `sorted.empty()` checks of `SortTopologically` and `DFS`, and the
  `clear` after DFS throws, cannot be reached. On a cycle the exception
  propagates through `InitializeSystems`, which ignores the sort's `bool`
  result.
- The `best < 0` branch after `PickBestDeviceIndex` in `Init` cannot be
  reached, because the function throws instead
  (`DeviceSelection.SelectionFailures`).
- For the device picked by `Init`, the queue-family throw and the
  missing-extension throw can never fire (`PhysicalDevice.InitOutcome`).

## Model

| member | source | states |
|---|---|---|
| PhysicalDeviceTypes.UnassignedQueues | src/RenderManager/Components/FxPhysicalDevice.h:18-21 | a default queue descriptor has all four indices at -1 |
| PhysicalDeviceTypes.UnassignedQueuesInvalid | src/RenderManager/Components/FxPhysicalDevice.h:18-28 | a default descriptor is never valid, whether or not presentation is required |
| PhysicalDeviceTypes.QueueIndices.IsValid | src/RenderManager/Components/FxPhysicalDevice.h:23-28 | Graphics must be assigned, and Present too when presentation is required; IsValidCases states both failure conditions |
| PhysicalDeviceTypes.IsValidCases | src/RenderManager/Components/FxPhysicalDevice.h:23-28 | IsValid fails exactly when Graphics is unassigned, or Present is unassigned while presentation is required |
| PhysicalDeviceTypes.DefaultPolicy | src/RenderManager/Components/FxPhysicalDevice.h:34-63 | the member initialisers of the selection policy; DefaultPolicyShape pins every field |
| PhysicalDeviceTypes.DefaultPolicyShape | src/RenderManager/Components/FxPhysicalDevice.h:34-63 | the default policy requires the swap chain, ranks discrete, integrated, CPU, virtual and other GPUs in that order, requires exactly VK_KHR_swapchain and no optional extension, prefers dedicated queues, weighs both terms by 1 and requires no core feature |
| DeviceSelection.HasExt | src/RenderManager/Components/FxPhysicalDevice.cpp:280-292 | the lookup is true exactly when the name is among the extensions |
| DeviceSelection.FirstMissing | src/RenderManager/Components/FxPhysicalDevice.cpp:484-499 | None exactly when every required name is present; otherwise the result is one of the required names |
| DeviceSelection.FirstMissingAt | src/RenderManager/Components/FxPhysicalDevice.cpp:484-499 | the reported name is the first required name in policy order that the device lacks |
| DeviceSelection.AvailablePrefix | src/RenderManager/Components/FxPhysicalDevice.cpp:785-818 | the names pushed before a throw are the longest prefix of the required list that the device has, and the next name is missing |
| DeviceSelection.AvailablePrefixAt | src/RenderManager/Components/FxPhysicalDevice.cpp:785-818 | when the first k required names are present and the next is not, the pushed list is exactly those k names |
| DeviceSelection.PresentOptionals | src/RenderManager/Components/FxPhysicalDevice.cpp:805-813 | an optional name is enabled iff the device reports it, and no more names than the optional list holds |
| DeviceSelection.PresentOptionalsSingle | src/RenderManager/Components/FxPhysicalDevice.cpp:807-811 | one optional name is pushed iff the device reports it |
| DeviceSelection.PresentOptionalsAppend | src/RenderManager/Components/FxPhysicalDevice.cpp:805-813 | the optional loop over a concatenation pushes the first part's names and then the second's, so the pushed names keep policy order and an optional listed twice is pushed twice |
| DeviceSelection.FirstServing | src/RenderManager/Components/FxPhysicalDevice.cpp:610-711 | each scan yields the lowest family index with the capability, or -1 when there is none |
| DeviceSelection.FirstServingUnique | src/RenderManager/Components/FxPhysicalDevice.cpp:610-711 | any index meeting that description is the scan's result |
| DeviceSelection.ScanFirst | src/RenderManager/Components/FxPhysicalDevice.cpp:610-711 | the loop scan returns the first family serving the role |
| DeviceSelection.ProbeQueueFamilies | src/RenderManager/Components/FxPhysicalDevice.cpp:610-711 | the method's bool and descriptor equal the probe specification: Graphics and Present first-match, dedicated Compute and Transfer preferred by policy, every unassigned role falling back to Graphics |
| DeviceSelection.ProbeSucceedsIffGraphics | src/RenderManager/Components/FxPhysicalDevice.cpp:610-711 | the probe succeeds iff some family has graphics, and its descriptor is then valid even with Present required |
| DeviceSelection.ProbeRoles | src/RenderManager/Components/FxPhysicalDevice.cpp:610-711 | after a successful probe all four indices name families: Graphics the first graphics family, Compute/Transfer the first dedicated one if preferred and present, else the first capable one, else Graphics; Present the first presenting family with a surface, else Graphics |
| DeviceSelection.ProbeSpec | src/RenderManager/Components/FxPhysicalDevice.cpp:610-711 | the queue probe: no family fails, Graphics and Present first match, Compute and Transfer prefer dedicated families, unassigned roles fall back to Graphics; ProbeSucceedsIffGraphics and ProbeRoles state its outcome role by role |
| DeviceSelection.Rank | src/RenderManager/Components/FxPhysicalDevice.cpp:518-539 | the rank is the position of the first occurrence of the type in the preference list |
| DeviceSelection.LargestDeviceLocal | src/RenderManager/Components/FxPhysicalDevice.cpp:534-538 | the result bounds every device-local heap and is either 0 or the size of one of them |
| DeviceSelection.LargestDeviceLocalHeap | src/RenderManager/Components/FxPhysicalDevice.cpp:534-538 | the heap loop computes that maximum |
| DeviceSelection.NoDeviceLocalMemoryScoresNothing | src/RenderManager/Components/FxPhysicalDevice.cpp:518-539 | without a device-local heap of a megabyte or more the VRAM term of the score is zero |
| DeviceSelection.EarlierTypeScoresHigher | src/RenderManager/Components/FxPhysicalDevice.cpp:518-539 | two devices differing only in type differ in score by exactly 100 per rank step |
| DeviceSelection.ScoreAboveSentinel | src/RenderManager/Components/FxPhysicalDevice.cpp:518-560 | with non-negative weights every accepted score beats the LLONG_MIN start value |
| DeviceSelection.Score | src/RenderManager/Components/FxPhysicalDevice.cpp:518-539 | the type-rank, image-size and VRAM terms; NoDeviceLocalMemoryScoresNothing, EarlierTypeScoresHigher and ScoreAboveSentinel state its properties |
| DeviceSelection.AcceptedIff | src/RenderManager/Components/FxPhysicalDevice.cpp:457-516 | the cascade accepts a device iff its type is preferred, its extensions enumerate, it has the swap chain when required, it has every required extension and some family has graphics |
| DeviceSelection.RequiringMoreNeverAccepts | src/RenderManager/Components/FxPhysicalDevice.cpp:484-499 | a device accepted under a longer required list gets the same verdict and score under the shorter one |
| DeviceSelection.Candidates | src/RenderManager/Components/FxPhysicalDevice.cpp:443-547 | on success there is one candidate per device, each from its own verdict; a failure is the first device whose extension enumeration throws |
| DeviceSelection.BestOf | src/RenderManager/Components/FxPhysicalDevice.cpp:549-566 | the chosen candidate is accepted, beats LLONG_MIN and every earlier accepted score strictly, and is at least every later one; None only when no accepted score beats LLONG_MIN |
| DeviceSelection.SelectionIsFirstArgMax | src/RenderManager/Components/FxPhysicalDevice.cpp:417-567 | the selected device is accepted, and it is the first device with the maximal score |
| DeviceSelection.SelectSpec | src/RenderManager/Components/FxPhysicalDevice.cpp:417-567 | no device throws, then the first scoring throw, then the first arg-max or no suitable device; SelectionIsFirstArgMax and SelectionFailures state each outcome |
| DeviceSelection.SelectionFailures | src/RenderManager/Components/FxPhysicalDevice.cpp:417-567 | the empty list throws NoDevicesToScore and only it; NoSuitableDevice means no device was accepted above LLONG_MIN; a success is never negative |
| DeviceSelection.EvaluateDevice | src/RenderManager/Components/FxPhysicalDevice.cpp:457-546 | the loop body's candidate, or the thrown error, is that of the cascade function |
| DeviceSelection.Evaluate | src/RenderManager/Components/FxPhysicalDevice.cpp:457-546 | the rejection cascade in source order, short-circuiting at the first failing check, with the enumeration throw; AcceptedIff and RequiringMoreNeverAccepts state its verdict |
| DeviceSelection.PickBestDeviceIndex | src/RenderManager/Components/FxPhysicalDevice.cpp:417-567 | the method's result equals the selection function |
| DeviceSelection.ScoreAll | src/RenderManager/Components/FxPhysicalDevice.cpp:443-547 | the scoring loop builds exactly the candidate list, or stops at the first throw |
| DeviceSelection.ArgMax | src/RenderManager/Components/FxPhysicalDevice.cpp:549-562 | the arg-max loop returns the specified best candidate, or -1 when there is none |
| DeviceSelection.ResolvedExtensionsAreAvailable | src/RenderManager/Components/FxPhysicalDevice.cpp:785-818 | a resolved list is the required names in policy order followed by the optional filter's names; it holds only reported names, and an optional name iff the device reports it |
| DeviceSelection.ResolvedExtensions | src/RenderManager/Components/FxPhysicalDevice.cpp:785-818 | the required names then the reported optional names, or the first missing required name; ResolvedExtensionsAreAvailable and AcceptedDeviceResolves state its properties |
| DeviceSelection.AcceptedDeviceResolves | src/RenderManager/Components/FxPhysicalDevice.cpp:785-818 | for a device the cascade accepted, resolution never throws |
| DeviceSelection.ValidateCoreFeatures | src/RenderManager/Components/FxPhysicalDevice.cpp:820-851 | success iff every required flag is supported; the error names the first unsupported flag in the order anisotropy, geometry shader, non-solid fill |
| DeviceSelection.DefaultPolicyNeverFailsFeatures | src/RenderManager/Components/FxPhysicalDevice.h:34-63 | under the default policy the feature check always succeeds |
| PhysicalDevice.ReleaseIdempotent | src/RenderManager/Components/FxPhysicalDevice.cpp:185-218 | a second Release changes nothing and fires no deleter; policy and instance survive; the queue descriptor becomes invalid |
| PhysicalDevice.AfterPickOutcome | src/RenderManager/Components/FxPhysicalDevice.cpp:108-183 | for an accepted device the post-pick steps return true iff the core features are supported and, when the swap chain and a surface are required, some family presents; the only throw is a missing feature |
| PhysicalDevice.InitOutcome | src/RenderManager/Components/FxPhysicalDevice.cpp:53-183 | Init returns true iff an instance is attached, a required surface exists, the driver lists devices, one is selected, it has the required features and can present when needed; its only throws are the selection's and the feature check's |
| PhysicalDevice.InitRun | src/RenderManager/Components/FxPhysicalDevice.cpp:53-107 | Init step by step: the early false returns, the enumeration, the selection and its throw, then AfterPick; InitOutcome states the result |
| PhysicalDevice.AfterPick | src/RenderManager/Components/FxPhysicalDevice.cpp:108-183 | the steps after the pick: cache, queues, extensions, core features, present support; AfterPickOutcome states the result |
| PhysicalDevice.FxPhysicalDevice.constructor | src/RenderManager/Components/FxPhysicalDevice.h:139-163 | a new object holds no instance, empty handles, the default policy and empty caches |
| PhysicalDevice.FxPhysicalDevice.Describe | src/RenderManager/Components/FxPhysicalDevice.cpp:17-20 | only the policy changes |
| PhysicalDevice.FxPhysicalDevice.AttachInstance | src/RenderManager/Components/FxPhysicalDevice.cpp:22-36 | the instance is stored; a non-null surface is adopted with a deleter capturing that instance, and the old surface's deleter fires |
| PhysicalDevice.FxPhysicalDevice.DetachInstance | src/RenderManager/Components/FxPhysicalDevice.cpp:38-41 | only the instance is forgotten |
| PhysicalDevice.FxPhysicalDevice.SetSurface | src/RenderManager/Components/FxPhysicalDevice.cpp:43-51 | the surface is replaced, null included, with a deleter capturing the current instance handle or the null handle, and the old one is destroyed |
| PhysicalDevice.FxPhysicalDevice.EnumeratePhysicalDevices | src/RenderManager/Components/FxPhysicalDevice.cpp:342-415 | success iff an instance is attached and the driver lists at least one device; only then is the list stored |
| PhysicalDevice.FxPhysicalDevice.CacheDeviceBasics | src/RenderManager/Components/FxPhysicalDevice.cpp:569-608 | without a device it throws and changes nothing; otherwise the properties, heaps and features are copied, and the extensions are re-enumerated (left empty and throwing on failure) |
| PhysicalDevice.FxPhysicalDevice.FindQueueFamilies | src/RenderManager/Components/FxPhysicalDevice.cpp:713-745 | it throws without a device or on a failed or invalid probe, leaving the state unchanged; otherwise it stores the probe's descriptor |
| PhysicalDevice.PushRequired | src/RenderManager/Components/FxPhysicalDevice.cpp:793-803 | the required-name loop reports exactly the first required name the device lacks, and has pushed exactly the required names before it |
| PhysicalDevice.PushOptional | src/RenderManager/Components/FxPhysicalDevice.cpp:805-813 | the optional-name loop pushes exactly the optional names the device reports, in policy order |
| PhysicalDevice.FxPhysicalDevice.ResolveExtensions | src/RenderManager/Components/FxPhysicalDevice.cpp:785-818 | the result and the enabled list match the resolution function; after a throw the list holds the required names pushed so far |
| PhysicalDevice.FxPhysicalDevice.ValidateRequiredCoreFeatures | src/RenderManager/Components/FxPhysicalDevice.cpp:820-851 | the result equals the feature check on the cached features |
| PhysicalDevice.FxPhysicalDevice.Init | src/RenderManager/Components/FxPhysicalDevice.cpp:53-183 | the result and the new state are those of the Init specification, and no deleter fires |
| PhysicalDevice.FxPhysicalDevice.FinishInit | src/RenderManager/Components/FxPhysicalDevice.cpp:108-183 | the steps after the pick produce the result and the state of the post-pick specification |
| PhysicalDevice.FxPhysicalDevice.Release | src/RenderManager/Components/FxPhysicalDevice.cpp:185-218 | both handles are reset and every cache is cleared, keeping the policy and instance; the surface deleter fires once if a live surface was held |
| PhysicalDevice.FxPhysicalDevice.MoveAssign | src/RenderManager/Components/FxPhysicalDevice.cpp:299-340 | self-assignment changes nothing; otherwise this object takes the other's whole state, the other is left released with no instance, and only this object's old surface is destroyed |
| PhysicalDevice.FxPhysicalDevice.TakeCachesFrom | src/RenderManager/Components/FxPhysicalDevice.cpp:305-323 | every plain member is copied from the source, and the owners are untouched |
| PhysicalDevice.FxPhysicalDevice.ClearAfterMove | src/RenderManager/Components/FxPhysicalDevice.cpp:325-337 | the moved-from object loses its instance, its device handle and every cache, with no deleter fired |
| PhysicalDevice.MoveConstruct | src/RenderManager/Components/FxPhysicalDevice.cpp:294-297 | the new object holds the source's whole state, and the source is left released with no instance and no surface destroyed |
| FxMemory.ResetFiresOnce | src/Common/FxMemory.h:27-34 | a reset fires at most one deleter call, exactly when the handle is live and a deleter is set; a reset owner fires nothing again |
| FxMemory.MovePreservesDestructions | src/Common/FxMemory.h:62-72 | moving loses and duplicates no destruction, and the moved-from owner holds a null handle that fires nothing |
| FxMemory.FxPtr.constructor | src/Common/FxMemory.h:19-22 | a default owner is empty and has destroyed nothing |
| FxMemory.FxPtr.Adopt | src/Common/FxMemory.h:19-22 | the owner holds the given handle and deleter |
| FxMemory.FxPtr.Reset | src/Common/FxMemory.h:27-34 | the new pair is adopted after the old handle's deleter fires, if it was live and destructible |
| FxMemory.FxPtr.Destroy | src/Common/FxMemory.h:24 | the destructor is Reset with defaults: the owner ends empty and invalid |
| FxMemory.FxPtr.Disarm | src/Common/FxMemory.h:37 | the pair is forgotten without calling the deleter |
| FxMemory.FxPtr.Put | src/Common/FxMemory.h:40-45 | the old handle is destroyed, the new deleter is installed and the slot is null |
| FxMemory.FxPtr.Get | src/Common/FxMemory.h:48 | the handle is null exactly when the owner is not valid |
| FxMemory.FxPtr.IsValid | src/Common/FxMemory.h:74 | the handle is not null; Get states the same test on the returned handle |
| FxMemory.FxPtr.IsDestructible | src/Common/FxMemory.h:75 | a deleter is installed; ResetFiresOnce states that a deleter fires only for a live, destructible owner |
| FxMemory.FxPtr.Moved | src/Common/FxMemory.h:56-60 | the new owner takes the pair and the source is left empty, nothing destroyed |
| FxMemory.FxPtr.MoveAssign | src/Common/FxMemory.h:62-72 | self-assignment does nothing; otherwise the old handle is destroyed first, then the source's pair is taken and the source left empty |
| VulkanHelpers.ScanStaysInitialized | src/Common/DefineVulkan.h:110-145 | the early return gives the same descriptor as running the loop to the end |
| VulkanHelpers.FamilyDesc.IsInitialized | src/Common/DefineVulkan.h:29-35 | both indices are set; ScanFindsCapabilities states when the scan makes it true |
| VulkanHelpers.FamilyStep | src/Common/DefineVulkan.h:124-136 | one loop iteration: a complete descriptor is left alone, an incomplete one takes a presenting family as Present, and an index changes only to the current family when it has that capability |
| VulkanHelpers.ScanFamilies | src/Common/DefineVulkan.h:110-145 | the loop body folded over every family; ScanStaysInitialized, ScanFindsCapabilities, ScanIncompleteIsLast and ScanOverwriteRule state which indices it reports |
| VulkanHelpers.ScanIncompleteIsLast | src/Common/DefineVulkan.h:110-145 | while the descriptor is incomplete, no later family has the reported index's capability |
| VulkanHelpers.ScanOverwriteRule | src/Common/DefineVulkan.h:110-145 | with c the family that completes the descriptor (or the end): no family strictly between the reported graphics index and c has graphics, and no family after the reported present index, up to and including c, can present |
| VulkanHelpers.ScanExampleOverwritesGraphics | src/Common/DefineVulkan.h:110-145 | two graphics families and then a presenting one report graphics 1 and present 2: the second graphics family overwrites the first |
| VulkanHelpers.ScanFindsCapabilities | src/Common/DefineVulkan.h:110-145 | each reported index names a family with the capability; an index is set iff some family has it; complete iff graphics and present both exist |
| VulkanHelpers.FindQueueFamily | src/Common/DefineVulkan.h:110-145 | the loop with early return yields the scan's descriptor, whose indices ScanOverwriteRule pins down |
| VulkanHelpers.Remaining | src/Common/DefineVulkan.h:155-163 | what is left of the set is exactly the pending names the device does not report |
| VulkanHelpers.CheckDeviceExtensionSupportAsWritten | src/Common/DefineVulkan.h:147-166 | as written the function returns true for every device |
| VulkanHelpers.AsWrittenAcceptsDeviceWithoutSwapchain | src/Common/DefineVulkan.h:147-166 | a device without VK_KHR_swapchain empties the set as written, but not the set of required names |
| VulkanHelpers.CheckDeviceExtensionSupport | src/Common/DefineVulkan.h:57-60 | corrected check: true iff every required device extension is reported |
| VulkanHelpers.FindMemoryTypeFrom | src/Common/DefineVulkan.h:169-186 | the first type at or after the start index allowed by the filter bit and carrying the property flags |
| VulkanHelpers.MemoryTypeMatches | src/Common/DefineVulkan.h:176-178 | the filter bit of the type is set and the type carries every requested flag; FindMemoryTypeFrom and FilterExcludes state the search over it |
| VulkanHelpers.FindMemoryType | src/Common/DefineVulkan.h:169-186 | the lowest matching type index; it throws exactly when no type matches |
| VulkanHelpers.FilterExcludes | src/Common/DefineVulkan.h:169-186 | a type whose filter bit is clear is never returned |
| VulkanHelpers.SelectSwapChainFormat | src/Common/DefineVulkan.h:308-314 | B8G8R8A8_SRGB with sRGB non-linear when listed, else the first listed format |
| VulkanHelpers.SelectSwapChainPresentMode | src/Common/DefineVulkan.h:316-321 | MAILBOX iff listed, FIFO otherwise |
| VulkanHelpers.FifoWithoutListing | src/Common/DefineVulkan.h:316-321 | FIFO comes back even when the surface lists no mode, or lists only IMMEDIATE |
| VulkanHelpers.Clamp | src/Common/DefineVulkan.h:335-345 | std::clamp: within ordered bounds; below the minimum gives the minimum, above the maximum the maximum, inside keeps the value |
| VulkanHelpers.SelectSwapChainExtent | src/Common/DefineVulkan.h:323-349 | the current extent when its width is not UINT32_MAX; otherwise each window axis clamped to the surface's bounds |
| VulkanHelpers.SwapChainSupport.IsInitialized | src/Common/DefineVulkan.h:44-48 | formats and present modes are both non-empty; IsDeviceSuitable states its part in the verdict |
| VulkanHelpers.ExtentWithinBounds | src/Common/DefineVulkan.h:323-349 | under the UINT32_MAX marker and ordered bounds the extent lies within the bounds; a window size inside is kept, one below the minimum becomes the minimum and one above the maximum the maximum |
| VulkanHelpers.CheckValidationLayerSupport | src/Common/DefineVulkan.h:351-374 | true iff every validation layer name is available |
| VulkanHelpers.SuitableWith | src/Common/DefineVulkan.h:376-390 | the verdict as a function of the extension check's answer |
| VulkanHelpers.IsDeviceSuitable | src/Common/DefineVulkan.h:376-390 | as written: true iff some family has graphics, some can present, and formats and present modes are non-empty; the device's extension list has no say, because the extension check it calls always passes |
| VulkanHelpers.IsDeviceSuitableCorrected | src/Common/DefineVulkan.h:376-390 | over the corrected extension check: the same conditions, plus VK_KHR_swapchain reported |
| VulkanHelpers.AsWrittenSuitableWithoutSwapchain | src/Common/DefineVulkan.h:376-390 | a device with a graphics-and-present family, usable swap-chain support and only VK_KHR_maintenance1 is suitable as written and unsuitable once corrected |
| Instance.Picked | src/RenderManager/Components/FxInstance.cpp:163-175 | a picked name is an enumerated name that is desired, and every such name is picked |
| Instance.DesiredKeysIgnoreBuild | src/RenderManager/Components/FxInstance.cpp:152-161 | the debug build's duplicate entries collapse: both builds demand the same extension and layer names |
| Instance.MatchDesired | src/RenderManager/Components/FxInstance.cpp:163-185 | the loops pick exactly the desired enumerated names in order and succeed iff every desired name was enumerated |
| Instance.FxInstance.constructor | src/RenderManager/Components/FxInstance.h:35 | a new instance object has empty lists and zero counts |
| Instance.FxInstance.PickExtensions | src/RenderManager/Components/FxInstance.cpp:143-187 | the enumeration is stored and the desired names picked; it throws iff a desired extension is missing; the layer state is untouched |
| Instance.FxInstance.PickLayers | src/RenderManager/Components/FxInstance.cpp:189-233 | the same for layers; it succeeds iff the validation layer is available |
| Instance.FxInstance.SupportsExtension | src/RenderManager/Components/FxInstance.cpp:67-73 | true iff the name is in the whole enumeration |
| Instance.FxInstance.SupportsLayer | src/RenderManager/Components/FxInstance.cpp:75-81 | true iff the name is in the whole layer enumeration |
| Instance.FxInstance.FillInstanceCreateInfo | src/RenderManager/Components/FxInstance.cpp:235-250 | the counts are the picked list sizes narrowed to uint32, and the lists are unchanged |
| Instance.PickedIsExactlyDesired | src/RenderManager/Components/FxInstance.cpp:143-187 | after a successful pick the enabled names are exactly the desired ones, and the count is unaffected by narrowing |
| DependencyResolver.SystemRef.constructor | src/Interface/ISystem.h:24-28 | a system has the given name and OnInit answer |
| DependencyResolver.RegisterOne | src/Engine/DependencyResolver/DependencyResolver.cpp:13-21 | null and already-present names are ignored; otherwise the system is appended |
| DependencyResolver.WithoutName | src/Engine/DependencyResolver/DependencyResolver.cpp:23-31 | exactly the entries with another name are kept |
| DependencyResolver.InitCalls | src/Engine/DependencyResolver/DependencyResolver.h:89-106 | OnInit runs on a prefix of the list, all but the last succeed, and the prefix stops early only at a failure; with no failure every system runs |
| DependencyResolver.InitCallsStopAt | src/Engine/DependencyResolver/DependencyResolver.h:95-103 | the run ends exactly at the first failing system |
| DependencyResolver.RegisterKeepsNamesUnique | src/Engine/DependencyResolver/DependencyResolver.h:74-79 | registering keeps system names unique |
| DependencyResolver.RegisterOnlyAppends | src/Engine/DependencyResolver/DependencyResolver.h:74-79 | the old list is a prefix of the new one, and every new entry is an argument |
| DependencyResolver.WithoutNameKeepsOrder | src/Engine/DependencyResolver/DependencyResolver.cpp:23-31 | unregistering distributes over concatenation, so the others keep their order |
| DependencyResolver.UnregisterRemovesNames | src/Engine/DependencyResolver/DependencyResolver.h:82-87 | no remaining system has any of the names passed, and none is new |
| DependencyResolver.TransitiveDepsBefore | src/Engine/DependencyResolver/DependencyResolver.cpp:106-136 | in a sorted list every transitive dependency is present and comes earlier |
| DependencyResolver.NoCycleThroughSorted | src/Engine/DependencyResolver/DependencyResolver.cpp:86-104 | a successful sort rules out any dependency cycle through a sorted system |
| DependencyResolver.Resolver.constructor | src/Engine/DependencyResolver/DependencyResolver.h:70-71 | a new resolver has no systems and no dependencies |
| DependencyResolver.Resolver.Register | src/Engine/DependencyResolver/DependencyResolver.cpp:13-21 | the list becomes the single-registration result; dependencies are unchanged |
| DependencyResolver.Resolver.RegisterAll | src/Engine/DependencyResolver/DependencyResolver.h:74-79 | arguments are registered left to right |
| DependencyResolver.Resolver.Unregister | src/Engine/DependencyResolver/DependencyResolver.cpp:23-31 | every entry with that name is removed, null is ignored; dependencies are unchanged |
| DependencyResolver.Resolver.UnregisterAll | src/Engine/DependencyResolver/DependencyResolver.h:82-87 | arguments are unregistered left to right |
| DependencyResolver.Resolver.AddDependency | src/Engine/DependencyResolver/DependencyResolver.h:126-130 | the arguments are appended in order, duplicates kept, to the system's list, which is created empty on first use; with no arguments nothing changes |
| DependencyResolver.Resolver.Clean | src/Engine/DependencyResolver/DependencyResolver.cpp:80-84 | systems and dependencies are cleared |
| DependencyResolver.Resolver.Visit | src/Engine/DependencyResolver/DependencyResolver.cpp:106-136 | a node on the stack throws; every throw is CycleDetected with the literal message `Cycle Detected with {}`; on success the node is sorted after its dependencies and the sort invariant holds |
| DependencyResolver.Resolver.EnterNode | src/Engine/DependencyResolver/DependencyResolver.cpp:121-124 | marking a new node visited and on the stack keeps the sort invariant |
| DependencyResolver.Resolver.FinishNode | src/Engine/DependencyResolver/DependencyResolver.cpp:126-135 | appending a node whose dependencies are all finished keeps the invariant |
| DependencyResolver.Resolver.SortTopologically | src/Engine/DependencyResolver/DependencyResolver.cpp:86-104 | on success the new list has no duplicates, keeps every system, puts dependencies first and adds only dependencies; a cycle throws and leaves the list unchanged |
| DependencyResolver.Resolver.InitializeSystems | src/Engine/DependencyResolver/DependencyResolver.h:89-106 | the systems are sorted, then OnInit runs in that order up to the first failure; the result is true iff all succeed; a cycle propagates with nothing initialised |
| DependencyResolver.Resolver.RunInit | src/Engine/DependencyResolver/DependencyResolver.h:95-103 | the OnInit loop calls the specified prefix and reports whether all succeed |
| DependencyResolver.Resolver.RunHook | src/Engine/DependencyResolver/DependencyResolver.h:108-124 | one hook call per system, in list order |
| Keyboard.AfterMessage | src/WindowsManager/Inputs/KeyboardSingleton.cpp:7-31 | a key-down sets bit wParam and a key-up clears it; an out-of-range key or other message changes nothing; no other bit moves |
| Keyboard.MessageIdempotent | src/WindowsManager/Inputs/KeyboardSingleton.cpp:7-31 | replaying a message has no further effect |
| Keyboard.PressReleaseRestoresOthers | src/WindowsManager/Inputs/InputKeyboardSingleton.cpp:7-31 | after a press and a release the key is up and every other key is as before |
| Keyboard.KeyStates.constructor | src/WindowsManager/Inputs/KeyboardSingleton.h:37-41 | all 256 keys start up |
| Keyboard.KeyStates.HandleMessage | src/WindowsManager/Inputs/KeyboardSingleton.cpp:7-31 | the bitset becomes the message function of the old bitset |
| Keyboard.KeyStates.Reset | src/WindowsManager/Inputs/KeyboardSingleton.cpp:33-36 | every key is up |
| Keyboard.KeyStates.IsKeyDown | src/WindowsManager/Inputs/InputKeyboardSingleton.cpp:38-50 | it throws iff the key is past the bound, else reports the key's bit |
| Keyboard.KeyStates.At | src/WindowsManager/Inputs/KeyboardSingleton.cpp:52-55 | operator[] answers as IsKeyDown |
| Mouse.AsShort | src/WindowsManager/Inputs/MouseSingleton.cpp:64-75 | a 16-bit word read as a signed short, congruent mod 2^16 |
| Mouse.TruncDiv | src/WindowsManager/Inputs/MouseSingleton.cpp:77-82 | C++ division truncating toward zero: the remainder has the dividend's sign |
| Mouse.SetButton | src/WindowsManager/Inputs/MouseSingleton.cpp:84-90 | one bit is set or reset and the others are kept |
| Mouse.SetXButtons | src/WindowsManager/Inputs/MouseSingleton.cpp:92-110 | the XBUTTON1 flag alone drives MOUSE_X1 and the XBUTTON2 flag alone drives MOUSE_X2; a clear flag keeps its bit, and the four lower bits are kept |
| Mouse.AfterMessage | src/WindowsManager/Inputs/MouseSingleton.cpp:27-115 | per message: raw input adds the packet's motion; a move sets the signed position and the delta; the wheel adds the delta divided by 120, truncated toward zero; left, right and middle down set only their bit and up clears only it; each X flag sets or clears its own bit; any other message changes nothing |
| Mouse.MoveSetsDelta | src/WindowsManager/Inputs/MouseSingleton.cpp:64-75 | only a move changes the position; it sets it from signed 16-bit coordinates and the delta to the distance moved |
| Mouse.RawInputAccumulates | src/WindowsManager/Inputs/MouseSingleton.cpp:31-63 | a raw packet adds its motion to the delta, changing nothing else |
| Mouse.WheelTruncates | src/WindowsManager/Inputs/MouseSingleton.cpp:77-82 | less than one notch either way adds nothing to the wheel total |
| Mouse.WheelBitNeverSet | src/WindowsManager/Inputs/MouseSingleton.cpp:84-110 | no message touches the wheel bit, and only button messages move any bit |
| Mouse.BothXButtons | src/WindowsManager/Inputs/MouseSingleton.cpp:92-110 | with both X flags set, X1 and X2 are both pressed or released and the lower buttons keep their state |
| Mouse.MouseSingleton.State | src/WindowsManager/Inputs/MouseSingleton.h:15-29 | the state record always has six button bits |
| Mouse.MouseSingleton.constructor | src/WindowsManager/Inputs/MouseSingleton.cpp:8-25 | everything starts at zero with no button down |
| Mouse.MouseSingleton.SetXButtonBits | src/WindowsManager/Inputs/MouseSingleton.cpp:92-110 | the X bits follow the flags of the high word |
| Mouse.MouseSingleton.HandleMessage | src/WindowsManager/Inputs/MouseSingleton.cpp:27-115 | the new fields and button bits are the message function of the old ones, whose contract states each message's effect |
| Mouse.MouseSingleton.Reset | src/WindowsManager/Inputs/MouseSingleton.cpp:117-122 | delta, wheel and buttons are cleared, and the position is kept |
| Mouse.MouseSingleton.ClearButtons | src/WindowsManager/Inputs/MouseSingleton.cpp:117-122 | all six button bits are cleared |
| Mouse.MouseSingleton.IsMoved | src/WindowsManager/Inputs/MouseSingleton.cpp:132-135 | true iff either delta component is non-zero |
| Mouse.MouseSingleton.IsScrolled | src/WindowsManager/Inputs/MouseSingleton.cpp:137-140 | true iff the wheel total is non-zero |
| Mouse.MouseSingleton.IsButtonDown | src/WindowsManager/Inputs/MouseSingleton.cpp:142-156 | an index past the bound is not down, any other reports its bit |
| Logging.LevelLabel | src/Utils/Logger/Logger.cpp:61-70 | every label is ten characters wide |
| Logging.LevelLabelsDistinct | src/Utils/Logger/Logger.cpp:61-70 | distinct levels have distinct labels, and only Print's is blank |
| Logging.Guides | src/Utils/Logger/Logger.cpp:179-184 | four columns per ancestor level |
| Logging.GuidesSegment | src/Utils/Logger/Logger.cpp:179-184 | level i's guide sits at columns 4i to 4i+3 |
| Logging.PrefixShape | src/Utils/Logger/Logger.cpp:168-196 | the prefix is empty with no open scope; otherwise one four-column segment per scope, with guides for ancestors and the innermost level's tee, elbow, guide or blanks last |
| Logging.Prefix | src/Utils/Logger/Logger.cpp:168-196 | the ancestors' guides then the innermost segment; PrefixShape states its layout |
| Logging.FormatLine | src/Utils/Logger/Logger.cpp:57-95 | the line Log writes; FormatLineShape states its layout |
| Logging.FormatLineShape | src/Utils/Logger/Logger.cpp:57-95 | the line is the regular-line prefix, the requested number of tabs, the level label and the message, ending in one newline |
| Logging.Tabs | src/Utils/Logger/Logger.cpp:73-79 | the legacy indentation is exactly that many tabs |
| Logging.HeaderSegment | src/Utils/Logger/Logger.cpp:153-160 | a scope header ends in a tee when a sibling follows and in an elbow for the last one |
| Logging.Logger.constructor | src/Utils/Logger/Logger.cpp:32-50 | no open scope, the Unicode style, the terminal flag as given, nothing written |
| Logging.Logger.BuildPrefix | src/Utils/Logger/Logger.cpp:168-196 | the loop builds the specified prefix |
| Logging.Logger.Log | src/Utils/Logger/Logger.cpp:57-95 | one formatted line is appended (prefix, tabs, label, message, newline) and the scope state is unchanged |
| Logging.Logger.BeginScopeImpl | src/Utils/Logger/Logger.cpp:153-160 | the header is logged at the parent depth as a node line, then exactly one level is pushed |
| Logging.Logger.EndScopeImpl | src/Utils/Logger/Logger.cpp:162-166 | one level is popped; nothing happens on an empty stack |
| Logging.LoggerStatics.constructor | src/Utils/Logger/Logger.h:113-114 | no logger and zero tabs |
| Logging.LoggerStatics.Initialize | src/Utils/Logger/Logger.cpp:12-18 | a logger is created only when none exists, so a second call keeps the first |
| Logging.LoggerStatics.Terminate | src/Utils/Logger/Logger.cpp:20-23 | the logger is dropped |
| Logging.LoggerStatics.Get | src/Utils/Logger/Logger.cpp:25-30 | it throws iff uninitialised, else returns the logger |
| Logging.LoggerStatics.Write | src/Utils/Logger/Logger.h:47-87 | the static front ends log one line with the current tab count, keeping the scopes and the style, or do nothing before Initialize |
| Logging.LoggerStatics.BeginScope | src/Utils/Logger/Logger.h:97 | it throws before Initialize; otherwise it writes the header line at the parent depth with the current tab count, pushes one level, and keeps the style |
| Logging.LoggerStatics.EndScope | src/Utils/Logger/Logger.h:98 | it throws before Initialize; otherwise it pops one level, or leaves an empty stack empty, and writes nothing |
| Logging.LoggerStatics.SetIndentStyle | src/Utils/Logger/Logger.h:94 | it throws before Initialize, else changes only the style |
| Logging.LoggerStatics.IncreaseTab | src/Utils/Logger/Logger.h:89 | the uint8 counter wraps from 255 to 0 |
| Logging.LoggerStatics.DecreaseTab | src/Utils/Logger/Logger.h:90 | the counter decreases and stops at zero |
| FileSystemModel.LastSeparator | src/Utils/FileSystem/FileSystem.cpp:134-148 | the last slash or backslash, None iff there is none |
| FileSystemModel.SplitPathFile | src/Utils/FileSystem/FileSystem.cpp:134-148 | without a separator the whole path is the file name; otherwise directory + separator + file rebuild the path, the file name has no separator, and a trailing separator gives an empty file name |
| FileSystemModel.LeRoundTrip | src/Utils/FileSystem/FileSystem.cpp:73-81 | reading back the little-endian bytes of a number gives the number |
| FileSystemModel.Le32 | src/Utils/FileSystem/FileSystem.cpp:78-81 | WriteUInt32 writes four bytes that read back as the value |
| FileSystemModel.EncodeString | src/Utils/FileSystem/FileSystem.cpp:96-101 | a string below 2^32 bytes takes 4 + its length bytes |
| FileSystemModel.StringRoundTrip | src/Utils/FileSystem/FileSystem.cpp:83-101 | ReadString of what WriteString wrote gives the string and leaves the stream right after it |
| FileSystemModel.LongStringTruncated | src/Utils/FileSystem/FileSystem.cpp:96-101 | a string of 2^32 bytes or more reads back shortened to its length mod 2^32 |
| FileSystemModel.FileSystem.constructor | src/Utils/FileSystem/FileSystem.h:65-66 | a new handle is closed and not in read mode |
| FileSystemModel.FileSystem.IsOpen | src/Utils/FileSystem/FileSystem.cpp:122-125 | true iff the handle is open |
| FileSystemModel.FileSystem.OpenForRead | src/Utils/FileSystem/FileSystem.cpp:9-23 | read mode is set even on failure; it succeeds iff the file opens, and then the unread bytes are the file |
| FileSystemModel.FileSystem.OpenForWrite | src/Utils/FileSystem/FileSystem.cpp:25-45 | write mode; on success the file starts empty |
| FileSystemModel.FileSystem.Close | src/Utils/FileSystem/FileSystem.cpp:47-55 | nothing on a closed handle; otherwise closed and out of read mode |
| FileSystemModel.FileSystem.ReadBytes | src/Utils/FileSystem/FileSystem.cpp:57-63 | refused unless open for reading; it reads min(size mod 2^32, what is left) bytes off the front and succeeds iff exactly size arrived |
| FileSystemModel.FileSystem.WriteBytes | src/Utils/FileSystem/FileSystem.cpp:65-71 | ignored in read mode or when closed; otherwise the first size mod 2^32 bytes are appended |
| FileSystemModel.FileSystem.WriteString | src/Utils/FileSystem/FileSystem.cpp:96-101 | the length-prefixed encoding is appended when writable |
| FileSystemModel.FileSystem.WritePlainText | src/Utils/FileSystem/FileSystem.cpp:103-110 | the text and a newline are appended when writable |
| FileSystemModel.FileSystem.ReadString | src/Utils/FileSystem/FileSystem.cpp:83-94 | it succeeds iff the stream holds a whole encoded string, which it returns and consumes; on failure the output string is unchanged, and a refused read leaves the stream as it was while a short read has consumed it |
| StarMesh.RimVertex | src/RenderManager/RenderManager.h:68-80 | rim vertex i has step i and uses the outer radius iff i is even |
| StarMesh.VerticesUpTo | src/RenderManager/RenderManager.h:65-80 | the centre first, then rim vertex i at position i+1 |
| StarMesh.RimCount | src/RenderManager/RenderManager.h:68 | numPoints * 2 in uint32: even, below 2^32, and exactly 2 * numPoints when that fits |
| StarMesh.Triangle | src/RenderManager/RenderManager.h:82-87 | three indices, the centre first, each below the width of the cast it passes through |
| StarMesh.IndicesUpTo | src/RenderManager/RenderManager.h:68-87 | three indices per rim step; IndicesAt places triangle k at entries 3k to 3k+2 |
| StarMesh.IndicesAt | src/RenderManager/RenderManager.h:82-87 | entries 3k to 3k+2 are triangle k |
| StarMesh.EmitStar | src/RenderManager/RenderManager.h:48-89 | the loop produces exactly the specified vertices and indices |
| StarMesh.GenerateColorfulStarVerticesAsWritten | src/RenderManager/RenderManager.h:82-83 | as written, the indices are reduced through uint8_t |
| StarMesh.GenerateColorfulStarVertices | src/RenderManager/RenderManager.h:48-89 | corrected, the indices keep the uint16_t width of the index buffer |
| StarMesh.FanTriangle | src/RenderManager/RenderManager.h:82-87 | within the index width triangle k is (0, k+1, (k+1) mod rim + 1) |
| StarMesh.FanIndexInRange | src/RenderManager/RenderManager.h:82-87 | every index of such a fan names a vertex |
| StarMesh.StarFan | src/RenderManager/RenderManager.h:48-89 | the intended fan: 2n+1 vertices, 6n indices, triangle k is (0, k+1, (k+1) mod 2n + 1), the last closes on vertex 1, every index names a vertex |
| StarMesh.AsWrittenBreaksAt128Points | src/RenderManager/RenderManager.h:82-83 | as written, with 128 points the last triangle is (0, 0, 1) instead of (0, 256, 1) |
| WindowSize.ToLong | src/Common/DefineWindows.h:18-21 | the LONG cast is congruent mod 2^32 and the identity below 2^31 |
| WindowSize.WindowSizeDesc.constructor | src/Common/DefineWindows.h:13-17 | the descriptor holds the given UINT sizes |
| WindowSize.WindowSizeDesc.GetRect | src/Common/DefineWindows.h:18-21 | the rect is at the origin and its corner is the size as LONGs, equal to it when it fits |
| WindowSize.WindowSizeDesc.FromRect | src/Common/DefineWindows.h:23-27 | the size becomes the rect's extents, reduced mod 2^32 |
| WindowSize.RectRoundTrip | src/Common/DefineWindows.h:18-27 | the extents right - left and bottom - top of GetRect, stored as UINTs, are the size again, for every UINT size |
| WindowSize.RoundTripThroughRect | src/Common/DefineWindows.h:18-27 | a descriptor that reads its own rect back keeps its size |
| WindowSize.FromRectIsExtent | src/Common/DefineWindows.h:23-27 | an off-origin rect gives its extent, not its corner |
| ObjectIds.NextId | src/Common/FObject.h:14 | the pre-increment adds one and wraps to 0 past UINT_MAX |
| ObjectIds.CounterAfterIsSum | src/Common/FObject.h:14-21 | after k constructions the counter is start + k mod 2^32 |
| ObjectIds.IdsUniqueUntilWrap | src/Common/FObject.h:14-21 | from a fresh counter the j-th object gets ID j, so IDs strictly increase and do not repeat before the 2^32-th construction |
| ObjectIds.CounterWrapsToZero | src/Common/FObject.h:14-21 | the 2^32-th construction from a fresh counter wraps the unsigned counter back to 0 |
| ObjectIds.IdCounters.constructor | src/Common/ObjectID.h:20 | both counters start at zero |
| ObjectIds.FObject.constructor | src/Common/FObject.h:14-15 | the ID is the incremented shared counter, and ObjectID's counter is untouched |
| ObjectIds.ObjectID.constructor | src/Common/ObjectID.h:13-14 | the ID is the incremented own counter, and FObject's counter is untouched |
| ObjectIds.FirstIds | src/Common/ObjectID.h:13-20 | the first FObject and the first ObjectID both get ID 1, and the next FObject gets 2 |

## Left out

- Vulkan, Win32 and file-system calls are not made. What they report is an input to the model: device records, enumerations, surface capabilities, raw-input packets, file contents, and the success of CreateFile.
- A driver that answers differently when asked twice is out of scope. The model assumes every query gives the same answer each time it is made.
- The Vulkan 1.1/1.2/1.3 feature structs are left out, because no decision in the core reads them. Only the three core features the policy can require are kept.
- Log output, the console colour, timestamps, the log file and the std::mutex are left out. Lines are collected in `output`, and concurrency is not modelled.
- The `Logger` destructor and `EnableTerminal`'s console allocation are left out (OS calls).
- FxInstance `Init`, `Release`, `FillAppInfo` and the debug-messenger setup are left out. They only fill driver structs and call vkCreateInstance.
- The FxPhysicalDevice getters are not modelled: they return members unchanged.
- `HasExtension` is declared but never defined, so there is nothing to model.
- A moved-from `std::function` is modelled as empty. The standard leaves it valid but unspecified.
- `FxPtr::Put`'s returned slot address is left out. The model leaves a null handle in the slot for the API call to fill.
- `FxPtr` copy operations are deleted in the source, so there is nothing to model.
- Raw-input device registration in the mouse constructor is an OS call and is left out.
- Debug builds break into the debugger or assert on a bad key or button index, or when no memory type matches. The model follows the release build: `IsKeyDown` throws, `IsButtonDown` returns false, and `FindMemoryType` throws where the debug build breaks and returns 0.
- `DebugKeysPressed` only prints, so it is left out.
- The star mesh's positions and colours are floating point and are left out. Only the vertex order and the index topology are modelled.
- Null arguments to `AddDependency` are not modelled.
- OS short reads and short writes are not modelled. A read returns what is left of the file, up to the count requested.
- `GetFileSize`, `IsPathExists`, `IsDirectory`, `IsFile`, `CopyFiles`, `MoveFiles`, `ReadFromFile` and `CreateDirectories` are not modelled. They are thin OS wrappers outside the core.
- The mouse position and delta use unbounded integers. The deltas do not wrap at LONG's range.
- DeviceSelection.Score: uses unbounded integers. The source computes `rank * 100` in `int`, and the two weight products and the sum in `long long`. For large policy weights, or a VRAM term near 2^63 / weight, these overflow, which is undefined behaviour in C++. The model instead keeps the exact sum.
- FObject.h and ObjectID.h share the include guard `OBJECTID_H`, so a translation unit that includes both sees only the first class. The model declares both side by side. `ObjectIds.FirstIds` relates their counters, which stay independent statics either way.
- Mouse.MouseSingleton.GetX, GetY, GetDeltaX, GetDeltaY and GetWheelDelta have no contract: each returns one field.
- DependencyResolver.Resolver.SortTopologically: the contract does not state the exact post-order. It states that the result has no duplicates, keeps every system, adds only dependencies and puts dependencies first.
- DependencyResolver.Resolver.SortTopologically: the model does not prove that an `Err` result implies a dependency cycle. It proves that a successful sort rules out any cycle through the sorted systems.
- DependencyResolver.Resolver.Visit: the contract does not state that a throw happens only on a node that closes a cycle. It states that a node already on the stack throws, and that every throw carries the unformatted cycle message.
- Logging.LoggerStatics.Write: the message is taken already formatted. `std::format`'s expansion of the format string and arguments is not modelled.
- Logger strings are sequences of Unicode code points, while the C++ builds UTF-8 `std::string`s. So `Guides` and `PrefixShape` count four columns per level, where the Unicode guides are longer in bytes (`│   ` is six bytes, `├── ` is ten).
- FileSystemModel.FileSystem.WritePlainText states the appended bytes only when the text plus its newline is shorter than 2^32 bytes.

## Findings

| source | as written | input that shows it | evidently intended | confidence | as-written member | corrected member |
|---|---|---|---|---|---|---|
| src/Common/DefineVulkan.h:147-166 | the set of pending names is filled from the device's own extension list, and then every reported name is erased, so the set always ends empty and the function returns true | a device reporting only `VK_KHR_maintenance1` passes, although it lacks `VK_KHR_swapchain` | start from `Fox::vkDeviceExtensions` and erase what the device reports, so a missing required extension makes it return false | high, not executed | VulkanHelpers.CheckDeviceExtensionSupportAsWritten | VulkanHelpers.CheckDeviceExtensionSupport |
| src/Common/DefineVulkan.h:376-390 | IsDeviceSuitable gates the swap-chain query on the always-true extension check above, so the device's extension list never decides the verdict | one family with graphics and present support, a non-empty format and present-mode list, and only `VK_KHR_maintenance1` reported: the device is judged suitable | reject a device that lacks `VK_KHR_swapchain` | high, not executed | VulkanHelpers.AsWrittenSuitableWithoutSwapchain | VulkanHelpers.IsDeviceSuitableCorrected |
| src/RenderManager/RenderManager.h:82-83 | the triangle indices `i1` and `i2` are stored in `uint8_t` before they go into the `uint16_t` index buffer | `numPoints = 128`: triangle 255 becomes (0, 0, 1) instead of (0, 256, 1), so rim vertex 256 is never drawn and the centre is reused | keep the indices at the buffer's `uint16_t` width | high, not executed | StarMesh.AsWrittenBreaksAt128Points | StarMesh.StarFan |
