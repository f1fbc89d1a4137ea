/** Where the core resources live in the flat table g_core_resources:
    core_get_resource_memory_by_index, the inverse map from a slot back to its
    type and device, and what the classifiers oc_core_is_SVR,
    oc_core_is_vertical_resource and oc_core_is_DCR decide about a slot. */
module CoreIndex {
  import opened Common
  import opened CoreUri

  /** OC_NUM_CORE_PLATFORM_RESOURCES: the platform-wide types come first. */
  const PlatformResources := OcfCon

  /** OC_NUM_CORE_LOGICAL_DEVICE_RESOURCES: the per-device types OcfCon..OcfD. */
  const DeviceResources := OcfD - OcfCon + 1

  /** The number of slots for `count` devices. */
  function TableSize(count: nat): nat {
    PlatformResources + DeviceResources * count
  }

  /** The type a slot holds. */
  function SlotType(i: nat): nat {
    if i < PlatformResources then i else (i - PlatformResources) % DeviceResources + OcfCon
  }

  /** The device a per-device slot belongs to. */
  function SlotDevice(i: nat): nat
    requires i >= PlatformResources
  {
    (i - PlatformResources) / DeviceResources
  }

  /** The slot of a per-device type gives back that type and device. */
  lemma SlotOf(device: nat, t: int)
    requires OcfCon <= t <= OcfD
    ensures DeviceResources * device + t >= PlatformResources
    ensures SlotType(DeviceResources * device + t) == t
    ensures SlotDevice(DeviceResources * device + t) == device
  {
    var i := DeviceResources * device + t;
    assert i - PlatformResources == DeviceResources * device + (t - OcfCon);
  }

  /** The slots of a device are the block from its OcfCon to its OcfD slot. */
  lemma SlotInBlock(i: nat, device: nat)
    ensures (i >= PlatformResources && SlotDevice(i) == device)
        <==> DeviceResources * device + OcfCon <= i <= DeviceResources * device + OcfD
  {
    if i >= PlatformResources && SlotDevice(i) == device {
      var q := (i - PlatformResources) / DeviceResources;
      assert i - PlatformResources == DeviceResources * q + (i - PlatformResources) % DeviceResources;
    }
    if DeviceResources * device + OcfCon <= i <= DeviceResources * device + OcfD {
      SlotOf(device, i - DeviceResources * device);
    }
  }

  /** core_get_resource_memory_by_index with `count` devices: no slot for a
      type outside [OcfP, OcfD] or for a per-device type of an invalid
      device; otherwise a slot below the table size that holds exactly that
      type (and, for per-device types, that device). */
  function MemoryIndex(t: int, device: nat, count: nat): (r: Option<nat>)
    ensures r.Some? <==> 0 <= t <= OcfD && (t < OcfCon || device < count)
    ensures r.Some? ==> r.value < TableSize(count) && SlotType(r.value) == t
    ensures r.Some? ==> (r.value < PlatformResources <==> t < OcfCon)
    ensures r.Some? && t >= OcfCon ==> SlotDevice(r.value) == device
  {
    if t < 0 || t > OcfD then None
    else if t < OcfCon then Some(t)
    else if device >= count then None
    else
      SlotOf(device, t);
      Some(DeviceResources * device + t)
  }

  /** Different (type, device) pairs never share a slot; platform types
      share theirs across devices. */
  lemma MemoryIndexInjective(t1: int, d1: nat, t2: int, d2: nat, count: nat)
    requires MemoryIndex(t1, d1, count).Some? && MemoryIndex(t1, d1, count) == MemoryIndex(t2, d2, count)
    ensures t1 == t2
    ensures t1 >= OcfCon ==> d1 == d2
  {
  }

  /** A platform type has the same slot whatever the device and count. */
  lemma MemoryIndexPlatform(t: int, d1: nat, c1: nat, d2: nat, c2: nat)
    requires 0 <= t < OcfCon
    ensures MemoryIndex(t, d1, c1) == MemoryIndex(t, d2, c2) == Some(t)
  {
  }

  /** Every slot of the table for `count` devices is the slot of its own type
      (and device). */
  lemma MemoryIndexOnto(i: nat, count: nat)
    requires i < TableSize(count)
    ensures i < PlatformResources ==> MemoryIndex(SlotType(i), 0, count) == Some(i)
    ensures i >= PlatformResources ==> MemoryIndex(SlotType(i), SlotDevice(i), count) == Some(i)
  {
    if i >= PlatformResources {
      var d := SlotDevice(i);
      assert i - PlatformResources == DeviceResources * d + (i - PlatformResources) % DeviceResources;
      assert d < count;
    }
  }

  /** What a resource pointer designates: nothing, a slot of the core table,
      or a resource outside it (an application resource). */
  datatype ResourceRef = NullResource | CoreSlot(index: nat) | AppResource(id: nat)

  /** The pointer a lookup returns. */
  function RefOf(slot: Option<nat>): ResourceRef {
    if slot.Some? then CoreSlot(slot.value) else NullResource
  }

  /** A platform-wide slot (/oic/p). */
  predicate PlatformSlot(r: ResourceRef) {
    r.CoreSlot? && r.index < PlatformResources
  }

  /** A slot of the device's block. */
  predicate DeviceSlot(r: ResourceRef, device: nat) {
    r.CoreSlot? && r.index >= PlatformResources && SlotDevice(r.index) == device
  }

  /** oc_core_is_SVR: a security resource (doxm to roles) of this device. */
  predicate Svr(r: ResourceRef, device: nat, count: nat) {
    device < count && DeviceSlot(r, device) && SecDoxm <= SlotType(r.index) < OcfD
  }

  /** oc_core_is_vertical_resource: a platform slot, or, for a valid device,
      anything but null and that device's block. */
  predicate Vertical(r: ResourceRef, device: nat, count: nat) {
    PlatformSlot(r) || (device < count && !r.NullResource? && !DeviceSlot(r, device))
  }

  /** oc_core_is_DCR: a platform slot, or a slot of this (valid) device's
      block other than the introspection and configuration resources. */
  predicate Dcr(r: ResourceRef, device: nat, count: nat) {
    PlatformSlot(r)
    || (device < count && DeviceSlot(r, device)
        && SlotType(r.index) != IntrospectionWk && SlotType(r.index) != IntrospectionData && SlotType(r.index) != OcfCon)
  }

  /** The classifiers on the core resources of a valid device: security
      resources are exactly doxm..roles, none is vertical, and all but the
      two introspection resources and /oc/con are DCRs. */
  lemma ClassifyDeviceType(t: int, device: nat, count: nat)
    requires OcfCon <= t <= OcfD && device < count
    ensures var r := RefOf(MemoryIndex(t, device, count));
      && (Svr(r, device, count) <==> SecDoxm <= t < OcfD)
      && !Vertical(r, device, count)
      && (Dcr(r, device, count) <==> t != IntrospectionWk && t != IntrospectionData && t != OcfCon)
  {
  }

  /** The platform resource is a vertical DCR and no SVR, for any device. */
  lemma ClassifyPlatformType(t: int, device: nat, count: nat)
    requires 0 <= t < OcfCon
    ensures var r := RefOf(MemoryIndex(t, device, count));
      Dcr(r, device, count) && Vertical(r, 0, count) && !Svr(r, device, count)
  {
  }

  /** Null, and any resource with an invalid device, is no SVR and not
      vertical; null is no DCR, and an invalid device has no DCR outside the
      platform slot. */
  lemma ClassifyInvalid(r: ResourceRef, device: nat, count: nat)
    requires r.NullResource? || device >= count
    ensures !Svr(r, device, count)
    ensures !PlatformSlot(r) ==> !Vertical(r, device, count) && !Dcr(r, device, count)
  {
  }

  /** An application resource is vertical, and no DCR or SVR, for any
      valid device. */
  lemma ClassifyApp(id: nat, device: nat, count: nat)
    requires device < count
    ensures Vertical(AppResource(id), device, count)
    ensures !Dcr(AppResource(id), device, count) && !Svr(AppResource(id), device, count)
  {
  }
}
