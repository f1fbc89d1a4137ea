/** The state of oc_core_res.c: the core resource table, the device
    information array, the platform information, the device counter and the
    "announce /oc/con" switch, with the operations that read and change them
    (static allocation, OC_MAX_NUM_DEVICES slots). */
module CoreTable {
  import opened Common
  import opened CoreUri
  import opened CoreIndex
  import opened CoreInterfaces
  import opened CoreRequests

  /** Resource properties (OC_DISCOVERABLE, OC_OBSERVABLE, OC_SECURE). */
  datatype Property = Discoverable | Observable | Secure

  /** The parts of an oc_resource_t this file sets: owner device, stored URI
      (None while the slot is unused), resource types, interface mask,
      default interface, properties and location tag. */
  datatype CoreResource = CoreResource(
    device: nat,
    uri: Option<string>,
    types: seq<string>,
    interfaces: bv32,
    defaultInterface: bv32,
    properties: set<Property>,
    tagLocn: nat)

  /** A zeroed slot. */
  const BlankResource := CoreResource(0, None, [], 0, 0, {}, 0)

  /** oc_resource_is_initialized: the slot has a URI. */
  predicate Initialized(r: CoreResource) {
    r.uri.Some?
  }

  /** oc_ri_free_resource_properties on a slot: URI and types released. */
  function FreeProperties(r: CoreResource): (f: CoreResource)
    ensures !Initialized(f) && f.types == []
  {
    r.(uri := None, types := [])
  }

  /** The slot after oc_core_populate_resource: everything the call passes
      in, with the URI as oc_store_uri keeps it; the location tag is kept. */
  function Populated(r: CoreResource, device: nat, uri: string, interfaces: bv32, defaultInterface: bv32,
                     properties: set<Property>, types: seq<string>): (p: CoreResource)
    ensures Initialized(p) && StripSlash(p.uri.value) == StripSlash(uri)
    ensures |p.uri.value| > 0 && p.uri.value[0] == '/' && p.tagLocn == r.tagLocn
  {
    StoreUriStrip(uri);
    CoreResource(device, Some(StoreUri(uri)), types, interfaces, defaultInterface, properties, r.tagLocn)
  }

  /** The strings of oc_device_info_t (None once freed or never set). */
  datatype DeviceInfo = DeviceInfo(name: Option<string>, icv: Option<string>, dmv: Option<string>)

  const NoDeviceInfo := DeviceInfo(None, None, None)

  /** oc_platform_info_t: the manufacturer name, set once. */
  datatype PlatformInfo = PlatformInfo(mfgName: Option<string>)

  /** The resource types of a new device: the given one, followed by
      "oic.wk.d" unless it is "oic.wk.d" itself. */
  function DeviceTypes(rt: string): (r: seq<string>)
    ensures |r| > 0 && r[0] == rt && "oic.wk.d" in r
    ensures |r| == if rt == "oic.wk.d" then 1 else 2
  {
    if rt == "oic.wk.d" then [rt] else [rt, "oic.wk.d"]
  }

  /** The D resource of a new device. */
  function DeviceResource(r: CoreResource, device: nat, uri: string, rt: string): CoreResource {
    Populated(r, device, uri, IfR | IfBaseline, IfR, {Discoverable}, DeviceTypes(rt))
  }

  /** The /oc/con resource of a new device. */
  function ConResource(r: CoreResource, device: nat): CoreResource {
    Populated(r, device, "/oc/con", IfRw | IfBaseline, IfRw, {Discoverable, Observable, Secure}, ["oic.wk.con"])
  }

  /** The P resource. */
  function PlatformResource(r: CoreResource): CoreResource {
    Populated(r, 0, "oic/p", IfR | IfBaseline, IfR, {Discoverable}, ["oic.wk.p"])
  }

  /** The table after oc_core_add_new_device has filled the slots of device
      `d`: its D resource and, if announced, its /oc/con resource. */
  function WithDevice(s: seq<CoreResource>, d: nat, uri: string, rt: string, announce: bool): (r: seq<CoreResource>)
    requires |s| >= TableSize(d + 1)
    ensures |r| == |s|
  {
    var dSlot := DeviceResources * d + OcfD;
    var conSlot := DeviceResources * d + OcfCon;
    var s1 := s[dSlot := DeviceResource(s[dSlot], d, uri, rt)];
    if announce then s1[conSlot := ConResource(s1[conSlot], d)] else s1
  }

  /** The table after oc_core_shutdown with `count` devices: the first
      TableSize(count) slots freed. */
  function Freed(s: seq<CoreResource>, count: nat): (r: seq<CoreResource>)
    requires TableSize(count) <= |s|
    ensures |r| == |s|
  {
    seq(|s|, i requires 0 <= i < |s| => if i < TableSize(count) then FreeProperties(s[i]) else s[i])
  }

  class CoreResources {
    /** OC_MAX_NUM_DEVICES. */
    const maxDevices: nat
    /** g_core_resources. */
    const resources: array<CoreResource>
    /** g_oc_device_info. */
    const devices: array<DeviceInfo>
    /** g_device_count. */
    var deviceCount: nat
    /** g_oc_platform_info. */
    var platform: PlatformInfo
    /** g_announce_con_res. */
    var announceCon: bool

    ghost predicate Valid()
      reads this
    {
      resources.Length == TableSize(maxDevices) && devices.Length == maxDevices
      && deviceCount <= maxDevices && deviceCount <= Uint32Max
    }

    /** Zeroed static storage. */
    constructor (maxDevices: nat)
      ensures Valid() && this.maxDevices == maxDevices
      ensures deviceCount == 0 && platform == PlatformInfo(None) && !announceCon
      ensures resources[..] == seq(TableSize(maxDevices), _ => BlankResource)
      ensures devices[..] == seq(maxDevices, _ => NoDeviceInfo)
    {
      this.maxDevices := maxDevices;
      resources := new CoreResource[TableSize(maxDevices)](_ => BlankResource);
      devices := new DeviceInfo[maxDevices](_ => NoDeviceInfo);
      deviceCount := 0;
      platform := PlatformInfo(None);
      announceCon := false;
    }

    /** device_is_valid. */
    predicate DeviceIsValid(device: nat)
      reads this
    {
      device < deviceCount
    }

    /** oc_core_get_resource_by_index: the slot of the type and device, when
        it exists and is initialized. */
    function ResourceByIndex(t: int, device: nat): (r: Option<nat>)
      requires Valid()
      reads this, resources
      ensures r.Some? <==> MemoryIndex(t, device, deviceCount).Some? && Initialized(resources[MemoryIndex(t, device, deviceCount).value])
      ensures r.Some? ==> r == MemoryIndex(t, device, deviceCount)
    {
      var m := MemoryIndex(t, device, deviceCount);
      if m.None? then None
      else if !Initialized(resources[m.value]) then None
      else m
    }

    /** oc_core_get_resource_by_uri: the slot of the type the URI names (the
        slot is returned whether or not it is initialized). */
    function ResourceByUri(uri: string, device: nat): (r: Option<nat>)
      requires Valid()
      reads this
      ensures r.Some? <==> TypeByUri(uri, announceCon) >= 0 && (TypeByUri(uri, announceCon) < OcfCon || device < deviceCount)
      ensures r.Some? ==> r == MemoryIndex(TypeByUri(uri, announceCon), device, deviceCount)
    {
      var t := TypeByUri(uri, announceCon);
      if t < 0 then None else MemoryIndex(t, device, deviceCount)
    }

    /** oc_core_get_device_info: the information of a valid device. */
    function DeviceInfoOf(device: nat): (r: Option<DeviceInfo>)
      requires Valid()
      reads this, devices
      ensures r.Some? <==> device < deviceCount
      ensures r.Some? ==> r.value == devices[device]
    {
      if device < deviceCount then Some(devices[device]) else None
    }

    /** Looking up a core URI, with or without its leading '/', finds the
        slot of its type; the empty URI finds nothing, and neither does a
        per-device URI for an invalid device. */
    lemma ResourceByCoreUri(t: int, device: nat)
      requires Valid() && 0 <= t <= OcfD && (t != OcfCon || announceCon)
      ensures ResourceByUri(CoreUriOf(t), device) == MemoryIndex(t, device, deviceCount)
      ensures ResourceByUri(CoreKey(t), device) == MemoryIndex(t, device, deviceCount)
      ensures ResourceByUri("", device).None?
      ensures t >= OcfCon && device >= deviceCount ==> ResourceByUri(CoreUriOf(t), device).None?
    {
      TypeByUriRoundTrip(t, announceCon);
      TypeByUriEmpty(announceCon);
    }

    /** oc_core_is_SVR. */
    method IsSvr(r: ResourceRef, device: nat) returns (b: bool)
      requires Valid()
      ensures b == Svr(r, device, deviceCount)
    {
      if r.NullResource? || device >= deviceCount {
        return false;
      }
      var first := DeviceResources * device + SecDoxm;
      var last := DeviceResources * device + OcfD - 1;
      var i := first;
      while i <= last
        invariant first <= i <= last + 1
        invariant forall j :: first <= j < i ==> r != CoreSlot(j)
      {
        if r == CoreSlot(i) {
          SlotInBlock(i, device);
          SlotOf(device, i - DeviceResources * device);
          return true;
        }
        i := i + 1;
      }
      if DeviceSlot(r, device) {
        SlotInBlock(r.index, device);
        SlotOf(device, r.index - DeviceResources * device);
      }
      return false;
    }

    /** oc_core_is_vertical_resource. */
    method IsVertical(r: ResourceRef, device: nat) returns (b: bool)
      requires Valid()
      ensures b == Vertical(r, device, deviceCount)
    {
      if r.NullResource? {
        return false;
      }
      for i := 0 to PlatformResources
        invariant forall j :: 0 <= j < i ==> r != CoreSlot(j)
      {
        if r == CoreSlot(i) {
          return true;
        }
      }
      if device >= deviceCount {
        return false;
      }
      var base := DeviceResources * device;
      for i := base + OcfCon to base + OcfD + 1
        invariant forall j :: base + OcfCon <= j < i ==> r != CoreSlot(j)
      {
        if r == CoreSlot(i) {
          SlotInBlock(i, device);
          return false;
        }
      }
      if r.CoreSlot? {
        SlotInBlock(r.index, device);
      }
      return true;
    }

    /** oc_core_is_DCR. */
    method IsDcr(r: ResourceRef, device: nat) returns (b: bool)
      requires Valid()
      ensures b == Dcr(r, device, deviceCount)
    {
      if r.NullResource? {
        return false;
      }
      for i := 0 to PlatformResources
        invariant forall j :: 0 <= j < i ==> r != CoreSlot(j)
      {
        if r == CoreSlot(i) {
          return true;
        }
      }
      if device >= deviceCount {
        return false;
      }
      var base := DeviceResources * device;
      for i := base + OcfCon to base + OcfD + 1
        invariant forall j :: base + OcfCon <= j < i ==> r != CoreSlot(j)
      {
        if r == CoreSlot(i) {
          SlotInBlock(i, device);
          SlotOf(device, i - base);
          if i == base + IntrospectionWk || i == base + IntrospectionData || i == base + OcfCon {
            return false;
          }
          return true;
        }
      }
      if r.CoreSlot? {
        SlotInBlock(r.index, device);
      }
      return false;
    }

    /** oc_core_populate_resource: fills the slot of the type and device, if
        there is one; that slot is then what oc_core_get_resource_by_index
        returns. */
    method Populate(t: int, device: nat, uri: string, interfaces: bv32, defaultInterface: bv32,
                    properties: set<Property>, types: seq<string>)
      requires Valid()
      modifies resources
      ensures MemoryIndex(t, device, deviceCount).None? ==> resources[..] == old(resources[..])
      ensures var m := MemoryIndex(t, device, deviceCount);
        m.Some? ==> resources[..] == old(resources[..])[m.value := Populated(old(resources[m.value]), device, uri, interfaces, defaultInterface, properties, types)]
      ensures MemoryIndex(t, device, deviceCount).Some? ==> ResourceByIndex(t, device) == MemoryIndex(t, device, deviceCount)
    {
      var m := MemoryIndex(t, device, deviceCount);
      if m.Some? {
        resources[m.value] := Populated(resources[m.value], device, uri, interfaces, defaultInterface, properties, types);
      }
    }

    /** oc_core_add_new_device (the counter and the slots this file fills):
        refused at OC_MAX_NUM_DEVICES and at the 32-bit limit of the
        counter; otherwise the new device is the old count, the counter grows
        by one, its D resource (and, if announced, its /oc/con resource) is
        populated and its names are stored. */
    method AddNewDevice(uri: string, rt: string, name: string, specVersion: string, dataModelVersion: string)
      returns (device: Option<nat>)
      requires Valid()
      modifies this`deviceCount, resources, devices
      ensures Valid()
      ensures old(deviceCount) == maxDevices || old(deviceCount) == Uint32Max ==>
        device.None? && deviceCount == old(deviceCount)
        && resources[..] == old(resources[..]) && devices[..] == old(devices[..])
      ensures old(deviceCount) != maxDevices && old(deviceCount) != Uint32Max ==>
        device == Some(old(deviceCount)) && deviceCount == old(deviceCount) + 1
        && resources[..] == WithDevice(old(resources[..]), old(deviceCount), uri, rt, announceCon)
        && devices[..] == old(devices[..])[old(deviceCount) := DeviceInfo(Some(name), Some(specVersion), Some(dataModelVersion))]
      ensures device.Some? ==>
        && DeviceIsValid(device.value)
        && ResourceByIndex(OcfD, device.value) == Some(DeviceResources * device.value + OcfD)
      ensures device.Some? && announceCon ==> ResourceByIndex(OcfCon, device.value) == Some(DeviceResources * device.value + OcfCon)
    {
      var d := deviceCount;
      if d == maxDevices || d == Uint32Max {
        return None;
      }
      deviceCount := d + 1;
      ghost var before := resources[..];
      Populate(OcfD, d, uri, IfR | IfBaseline, IfR, {Discoverable}, DeviceTypes(rt));
      devices[d] := DeviceInfo(Some(name), Some(specVersion), Some(dataModelVersion));
      if announceCon {
        Populate(OcfCon, d, "/oc/con", IfRw | IfBaseline, IfRw, {Discoverable, Observable, Secure}, ["oic.wk.con"]);
      }
      assert resources[..] == WithDevice(before, d, uri, rt, announceCon);
      device := Some(d);
    }

    /** oc_core_shutdown: the platform name, the information of every added
        device and every slot in use are freed, and the counter is reset. */
    method Shutdown()
      requires Valid()
      modifies this`deviceCount, this`platform, resources, devices
      ensures Valid() && deviceCount == 0 && platform == PlatformInfo(None)
      ensures resources[..] == Freed(old(resources[..]), old(deviceCount))
      ensures forall t: int, d: nat :: ResourceByIndex(t, d).None?
      ensures devices[..] == seq(devices.Length, d requires 0 <= d < devices.Length =>
                                   if d < old(deviceCount) then NoDeviceInfo else old(devices[d]))
    {
      platform := PlatformInfo(None);
      var count := deviceCount;
      for i := 0 to count
        invariant platform == PlatformInfo(None) && deviceCount == count
        invariant forall d :: 0 <= d < devices.Length ==> devices[d] == if d < i then NoDeviceInfo else old(devices[d])
        invariant resources[..] == old(resources[..])
      {
        devices[i] := NoDeviceInfo;
      }
      var n := TableSize(count);
      for i := 0 to n
        invariant platform == PlatformInfo(None) && deviceCount == count
        invariant forall j :: 0 <= j < resources.Length ==> resources[j] == if j < i then FreeProperties(old(resources[j])) else old(resources[j])
        invariant forall d :: 0 <= d < devices.Length ==> devices[d] == if d < count then NoDeviceInfo else old(devices[d])
      {
        resources[i] := FreeProperties(resources[i]);
      }
      deviceCount := 0;
    }

    /** oc_core_init: shutdown, then every slot and device entry zeroed. */
    method Init()
      requires Valid()
      modifies this`deviceCount, this`platform, resources, devices
      ensures Valid() && deviceCount == 0 && platform == PlatformInfo(None)
      ensures resources[..] == seq(resources.Length, _ => BlankResource)
      ensures devices[..] == seq(devices.Length, _ => NoDeviceInfo)
    {
      Shutdown();
      forall i | 0 <= i < resources.Length {
        resources[i] := BlankResource;
      }
      forall d | 0 <= d < devices.Length {
        devices[d] := NoDeviceInfo;
      }
    }

    /** oc_core_init_platform: once a manufacturer name is stored nothing
        changes; otherwise /oic/p is populated and the name stored. */
    method InitPlatform(mfgName: string)
      requires Valid()
      modifies this`platform, resources
      ensures platform.mfgName.Some?
      ensures old(platform.mfgName.Some?) ==> platform == old(platform) && resources[..] == old(resources[..])
      ensures old(platform.mfgName.None?) ==>
        platform == PlatformInfo(Some(mfgName))
        && resources[..] == old(resources[..])[0 := PlatformResource(old(resources[0]))]
        && ResourceByIndex(OcfP, 0) == Some(0) && resources[0].uri == Some("/oic/p")
    {
      if platform.mfgName.Some? {
        return;
      }
      Populate(OcfP, 0, "oic/p", IfR | IfBaseline, IfR, {Discoverable}, ["oic.wk.p"]);
      assert StoreUri("oic/p") == "/oic/p";
      platform := PlatformInfo(Some(mfgName));
    }

    /** oc_device_bind_rt: the type goes in front of the D resource's types;
        nothing changes when the device has no D resource. */
    method BindRt(device: nat, rt: string)
      requires Valid()
      modifies resources
      ensures old(ResourceByIndex(OcfD, device)).None? ==> resources[..] == old(resources[..])
      ensures var m := old(ResourceByIndex(OcfD, device));
        m.Some? ==> resources[..] == old(resources[..])[m.value := old(resources[m.value]).(types := [rt] + old(resources[m.value].types))]
    {
      var m := ResourceByIndex(OcfD, device);
      if m.None? {
        return;
      }
      var r := resources[m.value];
      resources[m.value] := r.(types := [rt] + r.types);
    }

    /** oc_core_con_handler_post on a valid device whose D resource exists:
        the answer, the device name and the location tag of the D resource
        are what the walk ConPost yields, and nothing else changes. */
    method ConHandlerPost(device: nat, reps: seq<Rep>, locnOf: string -> Option<nat>) returns (status: Status)
      requires Valid() && device < deviceCount && Initialized(resources[DeviceResources * device + OcfD])
      modifies resources, devices
      ensures var dSlot := DeviceResources * device + OcfD;
        var r := ConPost(reps, old(devices[device].name), old(resources[dSlot].tagLocn), locnOf, false);
        && status == r.status
        && devices[..] == old(devices[..])[device := old(devices[device]).(name := r.name)]
        && resources[..] == old(resources[..])[dSlot := old(resources[dSlot]).(tagLocn := r.tagLocn)]
    {
      var dSlot := DeviceResources * device + OcfD;
      var changed := false;
      var i := 0;
      while i < |reps|
        invariant 0 <= i <= |reps|
        invariant Initialized(resources[dSlot])
        invariant ConPost(reps[i..], devices[device].name, resources[dSlot].tagLocn, locnOf, changed)
               == ConPost(reps, old(devices[device].name), old(resources[dSlot].tagLocn), locnOf, false)
        invariant devices[..] == old(devices[..])[device := old(devices[device]).(name := devices[device].name)]
        invariant resources[..] == old(resources[..])[dSlot := old(resources[dSlot]).(tagLocn := resources[dSlot].tagLocn)]
      {
        var rep := reps[i];
        assert reps[i..][1..] == reps[i + 1..];
        if rep.name == "n" {
          if !rep.value.RepString? || |rep.value.text| == 0 {
            return BadRequest;
          }
          devices[device] := devices[device].(name := Some(rep.value.text));
          changed := true;
          break;
        }
        if rep.name == "locn" {
          if !rep.value.RepString? || |rep.value.text| == 0 {
            return BadRequest;
          }
          var deviceRes := ResourceByIndex(OcfD, device);
          assert deviceRes == Some(dSlot);
          if resources[deviceRes.value].tagLocn == 0 {
            return BadRequest;
          }
          var l := locnOf(rep.value.text);
          if l.Some? {
            resources[deviceRes.value] := resources[deviceRes.value].(tagLocn := l.value);
            changed := true;
          }
        }
        i := i + 1;
      }
      status := if changed then Changed else BadRequest;
    }
  }
}
