/** The name-matching half of FxInstance (FxInstance.cpp): picking the
    instance extensions and layers from what the loader enumerates, the
    lookups on the enumerated lists and the create-info counts. The
    enumerations are inputs; `debugBuild` stands for the DEBUG/_DEBUG
    preprocessor switch. */
module Instance {
  import opened Wrappers

  datatype InstanceError = MissingInstanceExtensions | MissingInstanceLayers

  /** The desired instance extensions; a debug build appends
      VK_EXT_debug_utils a second time. */
  function DesiredExtensions(debugBuild: bool): seq<string> {
    ["VK_KHR_surface", "VK_KHR_win32_surface", "VK_EXT_debug_utils"]
    + (if debugBuild then ["VK_EXT_debug_utils"] else [])
  }

  /** The desired layers; a debug build appends the same name again. */
  function DesiredLayers(debugBuild: bool): seq<string> {
    ["VK_LAYER_KHRONOS_validation"] + (if debugBuild then ["VK_LAYER_KHRONOS_validation"] else [])
  }

  /** The keys of the unordered_map built from a desired list. */
  function Keys(desired: seq<string>): set<string> {
    set d | d in desired
  }

  /** The enumerated names whose name is a key, in enumeration order. */
  function Picked(available: seq<string>, keys: set<string>): (r: seq<string>)
    ensures |r| <= |available|
    ensures forall x :: x in r <==> x in available && x in keys
  {
    if |available| == 0 then []
    else
      var n := |available| - 1;
      var rest := Picked(available[..n], keys);
      assert forall x :: x in available <==> x in available[..n] || x == available[n];
      if available[n] in keys then rest + [available[n]] else rest
  }

  /** The duplicate of a debug build collapses in the map: both builds
      demand the same names, VK_EXT_debug_utils included, and the same
      single validation layer. */
  lemma DesiredKeysIgnoreBuild()
    ensures Keys(DesiredExtensions(true)) == Keys(DesiredExtensions(false))
    ensures "VK_EXT_debug_utils" in Keys(DesiredExtensions(false))
    ensures Keys(DesiredLayers(true)) == Keys(DesiredLayers(false)) == {"VK_LAYER_KHRONOS_validation"}
  {
    assert DesiredExtensions(false)[2] == "VK_EXT_debug_utils";
    assert DesiredLayers(false)[0] == "VK_LAYER_KHRONOS_validation";
  }

  /** The matching loop shared by PickExtensions and PickLayers: mark every
      desired name false, push each enumerated name that is a key (marking
      it found), then fail if any key stayed unmarked. */
  method MatchDesired(available: seq<string>, desired: seq<string>) returns (names: seq<string>, ok: bool)
    ensures names == Picked(available, Keys(desired))
    ensures ok <==> forall j :: 0 <= j < |desired| ==> desired[j] in available
  {
    var found: map<string, bool> := map[];
    var d := 0;
    while d < |desired|
      invariant 0 <= d <= |desired|
      invariant found.Keys == Keys(desired[..d])
      invariant forall k :: k in found ==> !found[k]
    {
      assert forall x :: x in desired[..d + 1] <==> x in desired[..d] || x == desired[d];
      found := found[desired[d] := false];
      d := d + 1;
    }
    assert desired[..|desired|] == desired;

    names := [];
    var i := 0;
    while i < |available|
      invariant 0 <= i <= |available|
      invariant found.Keys == Keys(desired)
      invariant names == Picked(available[..i], Keys(desired))
      invariant forall k :: k in found ==> (found[k] <==> k in available[..i])
    {
      assert available[..i + 1][..i] == available[..i];
      assert forall x :: x in available[..i + 1] <==> x in available[..i] || x == available[i];
      if available[i] in found {
        names := names + [available[i]];
        found := found[available[i] := true];
      }
      i := i + 1;
    }
    assert available[..|available|] == available;

    var error := false;
    var pending := found.Keys;
    while pending != {}
      invariant pending <= found.Keys
      invariant error <==> exists k :: k in found.Keys - pending && !found[k]
      decreases |pending|
    {
      var k :| k in pending;
      if !found[k] {
        error := true;
      }
      pending := pending - {k};
    }
    ok := !error;
    if !ok {
      var k :| k in found.Keys && !found[k];
      var j :| 0 <= j < |desired| && desired[j] == k;
    }
  }

  class FxInstance {
    const debugBuild: bool
    /** m_ppEnabledExtensions: every extension the loader enumerated. */
    var enumeratedExtensions: seq<string>
    var enabledExtensionNames: seq<string>
    /** m_ppEnabledLayers: every layer the loader enumerated. */
    var enumeratedLayers: seq<string>
    var enabledLayerNames: seq<string>
    var enabledExtensionCount: nat
    var enabledLayerCount: nat

    constructor (debug: bool)
      ensures debugBuild == debug
      ensures enumeratedExtensions == [] && enabledExtensionNames == []
      ensures enumeratedLayers == [] && enabledLayerNames == []
      ensures enabledExtensionCount == 0 && enabledLayerCount == 0
    {
      debugBuild := debug;
      enumeratedExtensions := [];
      enabledExtensionNames := [];
      enumeratedLayers := [];
      enabledLayerNames := [];
      enabledExtensionCount := 0;
      enabledLayerCount := 0;
    }

    /** PickExtensions: store the enumeration, keep the desired entries in
      enumeration order, throw if a desired name was never seen (the lists
      stay as filled). */
    method PickExtensions(available: seq<string>) returns (r: Result<bool, InstanceError>)
      modifies this
      ensures enumeratedExtensions == available
      ensures enabledExtensionNames == Picked(available, Keys(DesiredExtensions(debugBuild)))
      ensures r.Ok? <==> forall x :: x in DesiredExtensions(debugBuild) ==> x in available
      ensures r.Err? ==> r.error == MissingInstanceExtensions
      ensures enumeratedLayers == old(enumeratedLayers) && enabledLayerNames == old(enabledLayerNames)
      ensures enabledExtensionCount == old(enabledExtensionCount) && enabledLayerCount == old(enabledLayerCount)
    {
      enumeratedExtensions := available;
      var names, ok := MatchDesired(available, DesiredExtensions(debugBuild));
      enabledExtensionNames := names;
      if !ok {
        return Err(MissingInstanceExtensions);
      }
      return Ok(true);
    }

    /** PickLayers: the same rule for the validation layer. */
    method PickLayers(available: seq<string>) returns (r: Result<bool, InstanceError>)
      modifies this
      ensures enumeratedLayers == available
      ensures enabledLayerNames == Picked(available, Keys(DesiredLayers(debugBuild)))
      ensures r.Ok? <==> "VK_LAYER_KHRONOS_validation" in available
      ensures r.Err? ==> r.error == MissingInstanceLayers
      ensures enumeratedExtensions == old(enumeratedExtensions) && enabledExtensionNames == old(enabledExtensionNames)
      ensures enabledExtensionCount == old(enabledExtensionCount) && enabledLayerCount == old(enabledLayerCount)
    {
      enumeratedLayers := available;
      var names, ok := MatchDesired(available, DesiredLayers(debugBuild));
      assert DesiredLayers(debugBuild)[0] == "VK_LAYER_KHRONOS_validation";
      enabledLayerNames := names;
      if !ok {
        return Err(MissingInstanceLayers);
      }
      return Ok(true);
    }

    /** SupportsExtension: exact-name search of the whole enumeration, not
      only of the picked names. */
    method SupportsExtension(name: string) returns (found: bool)
      ensures found <==> name in enumeratedExtensions
    {
      var i := 0;
      while i < |enumeratedExtensions|
        invariant 0 <= i <= |enumeratedExtensions|
        invariant name !in enumeratedExtensions[..i]
      {
        assert enumeratedExtensions[..i + 1] == enumeratedExtensions[..i] + [enumeratedExtensions[i]];
        if enumeratedExtensions[i] == name {
          return true;
        }
        i := i + 1;
      }
      assert enumeratedExtensions[..i] == enumeratedExtensions;
      return false;
    }

    /** SupportsLayer: exact-name search of the whole layer enumeration. */
    method SupportsLayer(name: string) returns (found: bool)
      ensures found <==> name in enumeratedLayers
    {
      var i := 0;
      while i < |enumeratedLayers|
        invariant 0 <= i <= |enumeratedLayers|
        invariant name !in enumeratedLayers[..i]
      {
        assert enumeratedLayers[..i + 1] == enumeratedLayers[..i] + [enumeratedLayers[i]];
        if enumeratedLayers[i] == name {
          return true;
        }
        i := i + 1;
      }
      assert enumeratedLayers[..i] == enumeratedLayers;
      return false;
    }

    /** FillInstanceCreateInfo's counts: the sizes of the picked-name lists,
      narrowed to uint32. */
    method FillInstanceCreateInfo()
      modifies this
      ensures enabledExtensionCount == |enabledExtensionNames| % 0x1_0000_0000
      ensures enabledLayerCount == |enabledLayerNames| % 0x1_0000_0000
      ensures enumeratedExtensions == old(enumeratedExtensions) && enabledExtensionNames == old(enabledExtensionNames)
      ensures enumeratedLayers == old(enumeratedLayers) && enabledLayerNames == old(enabledLayerNames)
    {
      enabledExtensionCount := |enabledExtensionNames| % 0x1_0000_0000;
      enabledLayerCount := |enabledLayerNames| % 0x1_0000_0000;
    }
  }

  /** After a successful pick every desired name is enabled and nothing
      else is, and the count handed to vkCreateInstance is at most the
      enumeration's size. */
  lemma PickedIsExactlyDesired(available: seq<string>, debugBuild: bool)
    requires forall x :: x in DesiredExtensions(debugBuild) ==> x in available
    requires |available| < 0x1_0000_0000
    ensures var names := Picked(available, Keys(DesiredExtensions(debugBuild)));
      && (forall x :: x in names <==> x in DesiredExtensions(debugBuild))
      && |names| % 0x1_0000_0000 == |names| <= |available|
  {
  }
}
