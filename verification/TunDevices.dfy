/**
 * Who owns which tun descriptor: device handles that are created, replaced, duplicated, moved and
 * destroyed, and registries that keep one handle per interface name and are themselves moved and
 * destroyed. What the kernel answers is
 * a parameter; it promises only that a descriptor it hands out is not already open.
 */
module TunDevices {
  import opened Bytes

  datatype Device = Device(fd: int, ifIndex: int, name: string) {
    predicate Holding() { fd >= 0 }
  }

  const MOVED_FROM := Device(-1, -1, "")

  /** Open descriptors, and how often each number was ever opened and closed. */
  datatype Descriptors = Descriptors(open: set<int>, openings: multiset<int>, closings: multiset<int>)

  const NO_DESCRIPTORS := Descriptors({}, multiset{}, multiset{})

  function OpenFd(k: Descriptors, fd: int): Descriptors {
    k.(open := k.open + {fd}, openings := k.openings + multiset{fd})
  }

  function CloseFd(k: Descriptors, fd: int): Descriptors {
    k.(open := k.open - {fd}, closings := k.closings + multiset{fd})
  }

  /** `TunDevice::close`, which is also the destructor. */
  function ReleaseDevice(k: Descriptors, d: Device): Descriptors {
    if d.fd >= 0 then CloseFd(k, d.fd) else k
  }

  type Registry = map<string, Device>

  /** The registries, and the handles their users hold, by ids of the user's choosing. */
  datatype World = World(kernel: Descriptors, registries: map<nat, Registry>, handles: map<nat, Device>)

  const EMPTY_WORLD := World(NO_DESCRIPTORS, map[], map[])

  /** `order` is the order in which a registry's devices are destroyed. */
  datatype Event =
    | NewRegistry(reg: nat)
    | Create(reg: nat, fd: int, ioctlOk: bool, ifName: string, ifIndex: int)
    | CloseByName(reg: nat, name: string)
    | MoveRegistry(from: nat, reg: nat)
    | AssignRegistry(from: nat, reg: nat, order: seq<string>)
    | DestroyRegistry(reg: nat, order: seq<string>)
    | DupRegistered(reg: nat, name: string, fd: int, id: nat)
    | DupHandle(source: nat, fd: int, id: nat)
    | MoveConstruct(source: nat, id: nat)
    | MoveAssign(source: nat, target: nat)
    | Destroy(id: nat)

  /** `findDevice`; `None` is the null pointer. */
  function Find(devices: Registry, name: string): Option<Device> {
    if name in devices then Some(devices[name]) else None
  }

  /** `createDevice`, given what `open`, `ioctl` and `if_nametoindex` answer. */
  function CreateIn(
    k: Descriptors, devices: Registry, fd: int, ioctlOk: bool, ifName: string, ifIndex: int)
    : (Descriptors, Registry)
  {
    if fd < 0 then (k, devices)
    else if !ioctlOk then (CloseFd(OpenFd(k, fd), fd), devices)
    else
      var openings := OpenFd(k, fd);
      (if ifName in devices then ReleaseDevice(openings, devices[ifName]) else openings,
       devices[ifName := Device(fd, ifIndex, ifName)])
  }

  /** `closeDevice`: erasing the entry destroys the device. */
  function CloseIn(k: Descriptors, devices: Registry, name: string): (Descriptors, Registry) {
    if name in devices then (ReleaseDevice(k, devices[name]), devices - {name}) else (k, devices)
  }

  /** Destroying a registry's devices one after the other. */
  function CloseAll(k: Descriptors, devices: Registry, order: seq<string>): (Descriptors, Registry)
    decreases |order|
  {
    if order == [] then (k, devices)
    else
      var (k1, rest) := CloseIn(k, devices, order[0]);
      CloseAll(k1, rest, order[1..])
  }

  /** Move assignment to another object; `ifIndex_` is the one field not taken over. */
  function Assigned(target: Device, source: Device): Device {
    Device(source.fd, target.ifIndex, source.name)
  }

  /** `order` names every device, so that all are destroyed. */
  predicate Covers(order: seq<string>, devices: Registry) {
    forall name | name in devices :: name in order
  }

  /** What the caller can do and what the kernel can answer. */
  predicate Enabled(w: World, event: Event) {
    match event
    case NewRegistry(reg) => reg !in w.registries
    case Create(reg, fd, _, _, _) => reg in w.registries && (fd >= 0 ==> fd !in w.kernel.open)
    case CloseByName(reg, _) => reg in w.registries
    case MoveRegistry(from, reg) => from in w.registries && reg !in w.registries
    case AssignRegistry(from, reg, order) =>
      from in w.registries && reg in w.registries && from != reg && Covers(order, w.registries[reg])
    case DestroyRegistry(reg, order) => reg in w.registries && Covers(order, w.registries[reg])
    case DupRegistered(reg, name, fd, id) =>
      reg in w.registries && name in w.registries[reg] && id !in w.handles
      && (fd >= 0 ==> fd !in w.kernel.open && w.registries[reg][name].fd in w.kernel.open)
    case DupHandle(source, fd, id) =>
      source in w.handles && id !in w.handles
      && (fd >= 0 ==> fd !in w.kernel.open && w.handles[source].fd in w.kernel.open)
    case MoveConstruct(source, id) => source in w.handles && id !in w.handles
    case MoveAssign(source, target) => source in w.handles && target in w.handles
    case Destroy(id) => id in w.handles
  }

  /** The world with one registry, and the kernel, replaced. */
  function WithRegistry(w: World, reg: nat, state: (Descriptors, Registry)): World {
    w.(kernel := state.0, registries := w.registries[reg := state.1])
  }

  /** The map of registry `from` becomes that of `reg`; `from` is left empty. */
  function HandOver(w: World, from: nat, reg: nat): World
    requires from in w.registries
  {
    w.(registries := w.registries[reg := w.registries[from]][from := map[]])
  }

  function Dup(w: World, d: Device, fd: int, id: nat): World {
    if fd < 0 then w
    else w.(kernel := OpenFd(w.kernel, fd), handles := w.handles[id := Device(fd, d.ifIndex, d.name)])
  }

  function Next(w: World, event: Event): World
    requires Enabled(w, event)
  {
    match event
    case NewRegistry(reg) => w.(registries := w.registries[reg := map[]])
    case Create(reg, fd, ok, ifName, ifIndex) =>
      WithRegistry(w, reg, CreateIn(w.kernel, w.registries[reg], fd, ok, ifName, ifIndex))
    case CloseByName(reg, name) => WithRegistry(w, reg, CloseIn(w.kernel, w.registries[reg], name))
    case MoveRegistry(from, reg) => HandOver(w, from, reg)
    case AssignRegistry(from, reg, order) =>
      HandOver(WithRegistry(w, reg, CloseAll(w.kernel, w.registries[reg], order)), from, reg)
    case DestroyRegistry(reg, order) =>
      var cleared := WithRegistry(w, reg, CloseAll(w.kernel, w.registries[reg], order));
      cleared.(registries := cleared.registries - {reg})
    case DupRegistered(reg, name, fd, id) => Dup(w, w.registries[reg][name], fd, id)
    case DupHandle(source, fd, id) => Dup(w, w.handles[source], fd, id)
    case MoveConstruct(source, id) => w.(handles := w.handles[id := w.handles[source]][source := MOVED_FROM])
    case MoveAssign(source, target) =>
      World(
        ReleaseDevice(w.kernel, w.handles[target]),
        w.registries,
        w.handles[target := Assigned(w.handles[target], w.handles[source])][source := MOVED_FROM])
    case Destroy(id) => World(ReleaseDevice(w.kernel, w.handles[id]), w.registries, w.handles - {id})
  }

  predicate Possible(events: seq<Event>)
    decreases |events|, 0
  {
    events == []
    || (Possible(events[..|events| - 1]) && Enabled(After(events[..|events| - 1]), events[|events| - 1]))
  }

  function After(events: seq<Event>): World
    requires Possible(events)
    decreases |events|, 1
  {
    if events == [] then EMPTY_WORLD else Next(After(events[..|events| - 1]), events[|events| - 1])
  }

  // ---- Ownership ----

  datatype Slot = Registered(reg: nat, name: string) | Handle(id: nat)

  function At(w: World, slot: Slot): Device {
    match slot
    case Registered(reg, name) =>
      if reg in w.registries && name in w.registries[reg] then w.registries[reg][name] else MOVED_FROM
    case Handle(id) => if id in w.handles then w.handles[id] else MOVED_FROM
  }

  /** Every descriptor a device holds is open. */
  ghost predicate HeldAreOpen(w: World) {
    forall slot :: At(w, slot).Holding() ==> At(w, slot).fd in w.kernel.open
  }

  /** Every open descriptor is held by some device: nothing leaks. */
  ghost predicate OpenAreHeld(w: World) {
    forall fd | fd in w.kernel.open :: fd >= 0 && exists slot :: At(w, slot).fd == fd
  }

  /** No two devices hold the same descriptor. */
  ghost predicate Unshared(w: World) {
    forall s1, s2 :: At(w, s1).Holding() && At(w, s1).fd == At(w, s2).fd ==> s1 == s2
  }

  /** Each opening is matched by one closing, except for what is still open. */
  ghost predicate Conserved(k: Descriptors) {
    k.openings == k.closings + multiset(k.open)
  }

  ghost predicate Inv(w: World) {
    HeldAreOpen(w) && OpenAreHeld(w) && Unshared(w) && Conserved(w.kernel)
  }

  /** Only `slot` differs between the two worlds. */
  ghost predicate OnlyAt(w: World, w': World, slot: Slot) {
    forall s :: s != slot ==> At(w', s) == At(w, s)
  }

  lemma CloseConserves(k: Descriptors, fd: int)
    requires Conserved(k) && fd in k.open
    ensures Conserved(CloseFd(k, fd))
  {
    assert multiset(k.open) == multiset(k.open - {fd}) + multiset{fd};
  }

  lemma OpenConserves(k: Descriptors, fd: int)
    requires Conserved(k) && fd !in k.open
    ensures Conserved(OpenFd(k, fd))
  {
    assert multiset(k.open + {fd}) == multiset(k.open) + multiset{fd};
  }

  /** A device goes away, or lets go of its descriptor, and the descriptor is closed. */
  lemma Releases(w: World, w': World, slot: Slot)
    requires Inv(w) && OnlyAt(w, w', slot) && !At(w', slot).Holding()
    requires w'.kernel == ReleaseDevice(w.kernel, At(w, slot))
    ensures Inv(w')
  {
    if At(w, slot).Holding() {
      CloseConserves(w.kernel, At(w, slot).fd);
      forall fd | fd in w'.kernel.open
        ensures exists s :: At(w', s).fd == fd
      {
        var s :| At(w, s).fd == fd;
        assert At(w', s).fd == fd;
      }
    } else {
      forall fd | fd in w'.kernel.open
        ensures exists s :: At(w', s).fd == fd
      {
        var s :| At(w, s).fd == fd;
        assert At(w', s).fd == fd;
      }
    }
  }

  /** A slot that held nothing comes to hold a descriptor that was not open. */
  lemma Acquires(w: World, w': World, slot: Slot, fd: int)
    requires Inv(w) && OnlyAt(w, w', slot) && !At(w, slot).Holding()
    requires fd >= 0 && fd !in w.kernel.open && At(w', slot).fd == fd
    requires w'.kernel == OpenFd(w.kernel, fd)
    ensures Inv(w')
  {
    OpenConserves(w.kernel, fd);
    forall f | f in w'.kernel.open
      ensures f >= 0 && exists s :: At(w', s).fd == f
    {
      if f == fd {
        assert At(w', slot).fd == f;
      } else {
        var s :| At(w, s).fd == f;
        assert At(w', s).fd == f;
      }
    }
  }

  lemma TransferLeaksNothing(w: World, w': World, source: Slot, target: Slot)
    requires OpenAreHeld(w) && source != target && !At(w, target).Holding()
    requires forall s :: s != source && s != target ==> At(w', s) == At(w, s)
    requires At(w', target).fd == At(w, source).fd && w'.kernel == w.kernel
    ensures OpenAreHeld(w')
  {
    forall f | f in w'.kernel.open
      ensures f >= 0 && exists s :: At(w', s).fd == f
    {
      var s :| At(w, s).fd == f;
      assert At(w', if s == source then target else s).fd == f;
    }
  }

  /** A descriptor changes hands. */
  lemma Transfers(w: World, w': World, source: Slot, target: Slot)
    requires Inv(w) && source != target && !At(w, target).Holding()
    requires forall s :: s != source && s != target ==> At(w', s) == At(w, s)
    requires !At(w', source).Holding() && At(w', target).fd == At(w, source).fd
    requires w'.kernel == w.kernel
    ensures Inv(w')
  {
    hide OpenAreHeld, At;
    TransferLeaksNothing(w, w', source, target);
  }

  lemma ReplacingCommutes(k: Descriptors, replaced: Device, fd: int)
    requires fd != replaced.fd
    ensures ReleaseDevice(OpenFd(k, fd), replaced) == OpenFd(ReleaseDevice(k, replaced), fd)
  {
    if replaced.Holding() {
      assert k.open + {fd} - {replaced.fd} == k.open - {replaced.fd} + {fd};
    }
  }

  lemma CreateKeeps(w: World, reg: nat, fd: int, ifName: string, ifIndex: int)
    requires Inv(w) && reg in w.registries && fd >= 0 && fd !in w.kernel.open
    ensures Inv(Next(w, Create(reg, fd, true, ifName, ifIndex)))
  {
    hide Inv, OpenFd, CloseFd, ReleaseDevice;
    var slot := Registered(reg, ifName);
    var replaced := At(w, slot);
    HoldersAreOpen(w, slot);
    ReplacingCommutes(w.kernel, replaced, fd);
    NothingToClose(OpenFd(w.kernel, fd));
    var mid := WithRegistry(w, reg, (ReleaseDevice(w.kernel, replaced), w.registries[reg] - {ifName}));
    Releases(w, mid, slot);
    ClosingOpensNothing(w.kernel, replaced);
    Acquires(mid, Next(w, Create(reg, fd, true, ifName, ifIndex)), slot, fd);
  }

  lemma HoldersAreOpen(w: World, slot: Slot)
    requires Inv(w)
    ensures At(w, slot).Holding() ==> At(w, slot).fd in w.kernel.open
  {
  }

  lemma NothingToClose(k: Descriptors)
    ensures ReleaseDevice(k, MOVED_FROM) == k
  {
  }

  lemma ClosingOpensNothing(k: Descriptors, d: Device)
    ensures ReleaseDevice(k, d).open <= k.open
  {
  }

  lemma FailedCreateKeeps(w: World, reg: nat, fd: int, ifName: string, ifIndex: int)
    requires Inv(w) && reg in w.registries && fd >= 0 && fd !in w.kernel.open
    ensures Inv(Next(w, Create(reg, fd, false, ifName, ifIndex)))
  {
    var w' := Next(w, Create(reg, fd, false, ifName, ifIndex));
    OpenConserves(w.kernel, fd);
    CloseConserves(OpenFd(w.kernel, fd), fd);
    assert w'.kernel.open == w.kernel.open;
    SameSlots(w, w');
  }

  /** Nothing changes hands and nothing is opened or closed. */
  lemma SameSlots(w: World, w': World)
    requires HeldAreOpen(w) && OpenAreHeld(w) && Unshared(w)
    requires w'.kernel.open == w.kernel.open
    requires forall slot :: At(w', slot) == At(w, slot)
    ensures HeldAreOpen(w') && OpenAreHeld(w') && Unshared(w')
  {
    forall fd | fd in w'.kernel.open
      ensures exists slot :: At(w', slot).fd == fd
    {
      var slot :| At(w, slot).fd == fd;
      assert At(w', slot).fd == fd;
    }
  }

  lemma CloseInKeeps(w: World, reg: nat, name: string)
    requires Inv(w) && reg in w.registries
    ensures Inv(WithRegistry(w, reg, CloseIn(w.kernel, w.registries[reg], name)))
  {
    hide Inv, CloseFd;
    NothingToClose(w.kernel);
    var w' := WithRegistry(w, reg, CloseIn(w.kernel, w.registries[reg], name));
    Releases(w, w', Registered(reg, name));
  }

  /** Destroying the devices of a registry keeps the invariant, and leaves those not named. */
  lemma {:induction false} CloseAllKeeps(w: World, reg: nat, order: seq<string>)
    requires Inv(w) && reg in w.registries
    ensures
      var closed := CloseAll(w.kernel, w.registries[reg], order);
      Inv(WithRegistry(w, reg, closed)) && forall name | name in closed.1 :: name in w.registries[reg] && name !in order
    decreases |order|
  {
    hide Inv, ReleaseDevice;
    if order == [] {
      assert WithRegistry(w, reg, (w.kernel, w.registries[reg])) == w;
    } else {
      CloseInKeeps(w, reg, order[0]);
      var w1 := WithRegistry(w, reg, CloseIn(w.kernel, w.registries[reg], order[0]));
      CloseAllKeeps(w1, reg, order[1..]);
      var closed := CloseAll(w.kernel, w.registries[reg], order);
      assert WithRegistry(w1, reg, closed) == WithRegistry(w, reg, closed);
    }
  }

  /** Where a slot of the world after a hand-over had its device before. */
  function Before(slot: Slot, from: nat, reg: nat): Slot {
    if slot.Registered? && slot.reg == reg then Registered(from, slot.name) else slot
  }

  /** A registry's map is handed over whole to one that holds nothing. */
  lemma HandOverKeeps(w: World, from: nat, reg: nat)
    requires Inv(w) && from in w.registries && from != reg
    requires reg in w.registries ==> w.registries[reg] == map[]
    ensures Inv(HandOver(w, from, reg))
  {
    var w' := HandOver(w, from, reg);
    forall slot
      ensures At(w', slot).Holding() ==> At(w', slot) == At(w, Before(slot, from, reg)) && !(slot.Registered? && slot.reg == from)
    {
    }
    forall fd | fd in w'.kernel.open
      ensures exists slot :: At(w', slot).fd == fd
    {
      var slot :| At(w, slot).fd == fd;
      var now := if slot.Registered? && slot.reg == from then Registered(reg, slot.name) else slot;
      assert At(w', now).fd == fd;
    }
  }

  lemma RegistryStepKeeps(w: World, event: Event)
    requires Inv(w) && Enabled(w, event)
    requires event.NewRegistry? || event.MoveRegistry? || event.AssignRegistry? || event.DestroyRegistry?
    ensures Inv(Next(w, event))
  {
    hide HeldAreOpen, OpenAreHeld, Unshared, Conserved, CloseAll;
    var w' := Next(w, event);
    match event
    case NewRegistry(_) => SameSlots(w, w');
    case MoveRegistry(from, reg) => HandOverKeeps(w, from, reg);
    case AssignRegistry(from, reg, order) =>
      CloseAllKeeps(w, reg, order);
      HandOverKeeps(WithRegistry(w, reg, CloseAll(w.kernel, w.registries[reg], order)), from, reg);
    case DestroyRegistry(reg, order) =>
      CloseAllKeeps(w, reg, order);
      SameSlots(WithRegistry(w, reg, CloseAll(w.kernel, w.registries[reg], order)), w');
  }

  lemma MoveAssignKeeps(w: World, source: nat, target: nat)
    requires Inv(w) && Enabled(w, MoveAssign(source, target))
    ensures Inv(Next(w, MoveAssign(source, target)))
  {
    var w' := Next(w, MoveAssign(source, target));
    var mid := World(w'.kernel, w.registries, w.handles[target := MOVED_FROM]);
    Releases(w, mid, Handle(target));
    if source != target {
      Transfers(mid, w', Handle(source), Handle(target));
    } else {
      assert w'.handles == mid.handles;
    }
  }

  lemma StepKeeps(w: World, event: Event)
    requires Inv(w) && Enabled(w, event)
    ensures Inv(Next(w, event))
  {
    var w' := Next(w, event);
    match event
    case Create(reg, fd, ok, ifName, ifIndex) =>
      if fd < 0 {
        assert w' == w;
      } else if ok {
        CreateKeeps(w, reg, fd, ifName, ifIndex);
      } else {
        FailedCreateKeeps(w, reg, fd, ifName, ifIndex);
      }
    case CloseByName(reg, name) => CloseInKeeps(w, reg, name);
    case DupRegistered(_, _, fd, id) =>
      if fd >= 0 {
        Acquires(w, w', Handle(id), fd);
      }
    case DupHandle(_, fd, id) =>
      if fd >= 0 {
        Acquires(w, w', Handle(id), fd);
      }
    case MoveConstruct(source, id) => Transfers(w, w', Handle(source), Handle(id));
    case MoveAssign(source, target) => MoveAssignKeeps(w, source, target);
    case Destroy(id) => Releases(w, w', Handle(id));
    case _ => RegistryStepKeeps(w, event);
  }

  /**
   * In every run the open descriptors are exactly those held by live devices, no two devices share
   * one, and every descriptor ever opened has been closed exactly once or is still open.
   */
  lemma {:induction false} OwnershipHolds(events: seq<Event>)
    requires Possible(events)
    ensures
      var w := After(events);
      HeldAreOpen(w) && OpenAreHeld(w) && Unshared(w) && Conserved(w.kernel)
    decreases |events|
  {
    if events == [] {
      EmptyInv();
    } else {
      hide Next, HeldAreOpen, OpenAreHeld, Unshared;
      OwnershipHolds(events[..|events| - 1]);
      StepKeeps(After(events[..|events| - 1]), events[|events| - 1]);
    }
  }

  lemma EmptyInv()
    ensures Inv(EMPTY_WORLD)
  {
  }

  /** No device is left alive. */
  predicate AllGone(w: World) {
    w.handles == map[] && forall reg | reg in w.registries :: w.registries[reg] == map[]
  }

  /** When every registry is destroyed or empty and every handle destroyed, each descriptor was closed as often as opened. */
  lemma NothingLeaks(events: seq<Event>)
    requires Possible(events) && AllGone(After(events))
    ensures After(events).kernel.open == {}
    ensures After(events).kernel.openings == After(events).kernel.closings
  {
    OwnershipHolds(events);
    var w := After(events);
    hide After, Possible;
    assert forall slot :: At(w, slot) == MOVED_FROM;
    forall fd: int
      ensures fd !in w.kernel.open
    {
      assert fd in w.kernel.open ==> fd >= 0 && exists slot :: At(w, slot).fd == fd;
    }
  }

  function LookUp(w: World, reg: nat, name: string): Option<Device> {
    if reg in w.registries then Find(w.registries[reg], name) else None
  }

  /**
   * What the latest event about that name of that registry left there: the device created, or none if
   * it was closed or the registry destroyed; a moved registry takes over what the other had.
   */
  function Latest(events: seq<Event>, reg: nat, name: string): Option<Device>
    decreases |events|
  {
    if events == [] then None
    else
      var earlier := events[..|events| - 1];
      match events[|events| - 1]
      case Create(r, fd, true, ifName, ifIndex) =>
        if r == reg && ifName == name && fd >= 0 then Some(Device(fd, ifIndex, name)) else Latest(earlier, reg, name)
      case CloseByName(r, closed) =>
        if r == reg && closed == name then None else Latest(earlier, reg, name)
      case MoveRegistry(from, r) =>
        if r == reg then Latest(earlier, from, name)
        else if from == reg then None else Latest(earlier, reg, name)
      case AssignRegistry(from, r, _) =>
        if r == reg then Latest(earlier, from, name)
        else if from == reg then None else Latest(earlier, reg, name)
      case DestroyRegistry(r, _) => if r == reg then None else Latest(earlier, reg, name)
      case _ => Latest(earlier, reg, name)
  }

  lemma StepLooksUp(w: World, event: Event, reg: nat, name: string)
    requires Enabled(w, event)
    ensures
      LookUp(Next(w, event), reg, name)
      == match event
         case Create(r, fd, true, ifName, ifIndex) =>
           if r == reg && ifName == name && fd >= 0 then Some(Device(fd, ifIndex, name)) else LookUp(w, reg, name)
         case CloseByName(r, closed) => if r == reg && closed == name then None else LookUp(w, reg, name)
         case MoveRegistry(from, r) =>
           if r == reg then LookUp(w, from, name) else if from == reg then None else LookUp(w, reg, name)
         case AssignRegistry(from, r, _) =>
           if r == reg then LookUp(w, from, name) else if from == reg then None else LookUp(w, reg, name)
         case DestroyRegistry(r, _) => if r == reg then None else LookUp(w, reg, name)
         case _ => LookUp(w, reg, name)
  {
    hide ReleaseDevice, OpenFd, CloseFd, CloseAll;
  }

  /** `findDevice` returns the latest unclosed device of that name, whatever happened to other handles and registries. */
  lemma {:induction false} FindReturnsLatest(events: seq<Event>, reg: nat, name: string)
    requires Possible(events)
    ensures LookUp(After(events), reg, name) == Latest(events, reg, name)
    decreases |events|
  {
    if events != [] {
      hide Next, Enabled, LookUp;
      var earlier, last := events[..|events| - 1], events[|events| - 1];
      FindReturnsLatest(earlier, reg, name);
      StepLooksUp(After(earlier), last, reg, name);
      if last.MoveRegistry? || last.AssignRegistry? {
        FindReturnsLatest(earlier, last.from, name);
      }
    }
  }

  // ---- Where a device's fields come from ----

  /** Descriptor and index of a user's handle, traced through the history; -1 where there is none. */
  datatype Trace = Trace(fd: int, ifIndex: int)

  const NO_TRACE := Trace(-1, -1)

  function Traced(events: seq<Event>, id: nat): Trace
    decreases |events|
  {
    if events == [] then NO_TRACE
    else
      var earlier := events[..|events| - 1];
      match events[|events| - 1]
      case DupRegistered(reg, name, fd, to) =>
        if to != id || fd < 0 then Traced(earlier, id)
        else
          var source := Latest(earlier, reg, name);
          if source.Some? then Trace(fd, source.value.ifIndex) else NO_TRACE
      case DupHandle(source, fd, to) =>
        if to != id || fd < 0 then Traced(earlier, id) else Trace(fd, Traced(earlier, source).ifIndex)
      case MoveConstruct(source, to) =>
        if source == id then NO_TRACE else if to == id then Traced(earlier, source) else Traced(earlier, id)
      case MoveAssign(source, to) =>
        if source == id then NO_TRACE
        else if to == id then Trace(Traced(earlier, source).fd, Traced(earlier, id).ifIndex)
        else Traced(earlier, id)
      case Destroy(gone) => if gone == id then NO_TRACE else Traced(earlier, id)
      case _ => Traced(earlier, id)
  }

  /** The interface name under which the current opening of `fd` came into the world, directly or by duplication. */
  function OpenedAs(events: seq<Event>, fd: int): string
    decreases |events|
  {
    if events == [] then ""
    else
      var earlier := events[..|events| - 1];
      match events[|events| - 1]
      case Create(_, f, true, ifName, _) => if f == fd then ifName else OpenedAs(earlier, fd)
      case DupRegistered(_, name, f, _) => if f == fd then name else OpenedAs(earlier, fd)
      case DupHandle(source, f, _) =>
        if f == fd then OpenedAs(earlier, Traced(earlier, source).fd) else OpenedAs(earlier, fd)
      case _ => OpenedAs(earlier, fd)
  }

  lemma StepTraces(w: World, event: Event, id: nat)
    requires Enabled(w, event)
    ensures
      var d, d' := At(w, Handle(id)), At(Next(w, event), Handle(id));
      match event
      case DupRegistered(reg, name, fd, to) =>
        if to != id || fd < 0 then d' == d else d' == w.registries[reg][name].(fd := fd)
      case DupHandle(source, fd, to) =>
        if to != id || fd < 0 then d' == d else d' == w.handles[source].(fd := fd)
      case MoveConstruct(source, to) =>
        d' == if source == id then MOVED_FROM else if to == id then w.handles[source] else d
      case MoveAssign(source, to) =>
        if source == id then d' == MOVED_FROM
        else if to == id then d'.fd == w.handles[source].fd && d'.name == w.handles[source].name && d'.ifIndex == d.ifIndex
        else d' == d
      case Destroy(gone) => d' == if gone == id then MOVED_FROM else d
      case _ => d' == d
  {
    hide ReleaseDevice, OpenFd, CreateIn, CloseIn, CloseAll;
  }

  /** A handle's descriptor and index are those its history gives it: an index stays behind in a move assignment. */
  lemma {:induction false} HandlesAreTraced(events: seq<Event>, id: nat)
    requires Possible(events)
    ensures
      var d := At(After(events), Handle(id));
      Traced(events, id) == Trace(d.fd, d.ifIndex)
    decreases |events|
  {
    if events != [] {
      hide Next;
      var earlier, last := events[..|events| - 1], events[|events| - 1];
      HandlesAreTraced(earlier, id);
      StepTraces(After(earlier), last, id);
      match last
      case DupRegistered(reg, name, _, _) => FindReturnsLatest(earlier, reg, name);
      case DupHandle(source, _, _) => HandlesAreTraced(earlier, source);
      case MoveConstruct(source, _) => HandlesAreTraced(earlier, source);
      case MoveAssign(source, _) => HandlesAreTraced(earlier, source);
      case _ =>
    }
  }

  lemma {:induction false} LatestIsNamed(events: seq<Event>, reg: nat, name: string)
    ensures Latest(events, reg, name).Some? ==> Latest(events, reg, name).value.name == name
    decreases |events|
  {
    if events != [] {
      var earlier, last := events[..|events| - 1], events[|events| - 1];
      LatestIsNamed(earlier, reg, name);
      if last.MoveRegistry? || last.AssignRegistry? {
        LatestIsNamed(earlier, last.from, name);
      }
    }
  }

  /** A registered device bears the name it is registered under. */
  lemma RegisteredIsNamed(events: seq<Event>, reg: nat, name: string)
    requires Possible(events)
    ensures At(After(events), Registered(reg, name)).Holding() ==> At(After(events), Registered(reg, name)).name == name
  {
    hide After, Possible;
    FindReturnsLatest(events, reg, name);
    LatestIsNamed(events, reg, name);
  }

  ghost predicate NamedAsOpened(events: seq<Event>, d: Device) {
    d.Holding() ==> d.name == OpenedAs(events, d.fd)
  }

  /** A device that held its descriptor before the last event bears its name after it, too. */
  lemma NameLasts(events: seq<Event>, slot: Slot)
    requires events != [] && Possible(events)
    requires
      var d := At(After(events[..|events| - 1]), slot);
      NamedAsOpened(events[..|events| - 1], d)
    ensures NamedAsOpened(events, At(After(events[..|events| - 1]), slot))
  {
    var earlier := events[..|events| - 1];
    OwnershipHolds(earlier);
    assert Enabled(After(earlier), events[|events| - 1]);
    hide After, Possible, OpenAreHeld, Unshared;
  }

  lemma {:induction false} HandlesAreNamed(events: seq<Event>, id: nat)
    requires Possible(events)
    ensures NamedAsOpened(events, At(After(events), Handle(id)))
    decreases |events|
  {
    if events != [] {
      hide Next, NamedAsOpened;
      var earlier, last := events[..|events| - 1], events[|events| - 1];
      HandlesAreNamed(earlier, id);
      NameLasts(events, Handle(id));
      StepTraces(After(earlier), last, id);
      match last
      case DupRegistered(reg, name, fd, to) =>
        if to == id && fd >= 0 {
          DupIsNamed(events);
        }
      case DupHandle(source, fd, to) =>
        if to == id && fd >= 0 {
          HandlesAreNamed(earlier, source);
          HandlesAreTraced(earlier, source);
          DupIsNamed(events);
        }
      case MoveConstruct(source, to) =>
        HandlesAreNamed(earlier, source);
        NameLasts(events, Handle(source));
        NotHoldingIsNamed(events, MOVED_FROM);
      case MoveAssign(source, to) =>
        HandlesAreNamed(earlier, source);
        NameLasts(events, Handle(source));
        NotHoldingIsNamed(events, MOVED_FROM);
        SameNameSameDescriptor(events, At(After(earlier), Handle(source)), At(After(events), Handle(id)));
      case Destroy(gone) => NotHoldingIsNamed(events, MOVED_FROM);
      case _ =>
    } else {
      NotHoldingIsNamed(events, MOVED_FROM);
    }
  }

  lemma NotHoldingIsNamed(events: seq<Event>, d: Device)
    ensures !d.Holding() ==> NamedAsOpened(events, d)
  {
  }

  lemma SameNameSameDescriptor(events: seq<Event>, d: Device, d': Device)
    requires NamedAsOpened(events, d)
    ensures d'.fd == d.fd && d'.name == d.name ==> NamedAsOpened(events, d')
  {
  }

  /** The handle a duplication makes bears the name of what was duplicated. */
  lemma DupIsNamed(events: seq<Event>)
    requires events != [] && Possible(events)
    requires var last := events[|events| - 1]; (last.DupRegistered? || last.DupHandle?) && last.fd >= 0
    requires
      var earlier, last := events[..|events| - 1], events[|events| - 1];
      last.DupHandle? ==>
        var d := At(After(earlier), Handle(last.source));
        NamedAsOpened(earlier, d) && Traced(earlier, last.source).fd == d.fd
    ensures NamedAsOpened(events, At(After(events), Handle(events[|events| - 1].id)))
  {
    var earlier, last := events[..|events| - 1], events[|events| - 1];
    OwnershipHolds(earlier);
    StepTraces(After(earlier), last, last.id);
    if last.DupRegistered? {
      RegisteredIsNamed(earlier, last.reg, last.name);
    }
    hide Next, HeldAreOpen, Unshared, Latest;
  }

  lemma {:induction false} RegisteredAreNamed(events: seq<Event>, reg: nat, name: string)
    requires Possible(events)
    ensures NamedAsOpened(events, At(After(events), Registered(reg, name)))
    decreases |events|
  {
    if events == [] {
      NotHoldingIsNamed(events, MOVED_FROM);
    } else {
      hide Next, NamedAsOpened;
      var earlier, last := events[..|events| - 1], events[|events| - 1];
      RegisteredAreNamed(earlier, reg, name);
      NameLasts(events, Registered(reg, name));
      StepLooksUp(After(earlier), last, reg, name);
      NotHoldingIsNamed(events, At(After(events), Registered(reg, name)));
      match last
      case Create(r, fd, ok, ifName, ifIndex) => CreatedIsNamed(events);
      case MoveRegistry(from, _) =>
        RegisteredAreNamed(earlier, from, name);
        NameLasts(events, Registered(from, name));
      case AssignRegistry(from, _, _) =>
        RegisteredAreNamed(earlier, from, name);
        NameLasts(events, Registered(from, name));
      case _ =>
    }
  }

  lemma CreatedIsNamed(events: seq<Event>)
    requires events != [] && events[|events| - 1].Create?
    ensures
      var last := events[|events| - 1];
      last.ioctlOk ==> NamedAsOpened(events, Device(last.fd, last.ifIndex, last.ifName))
  {
  }

  /**
   * In every run, whatever was moved, assigned, duplicated or replaced, a device that holds a descriptor
   * bears the interface name under which that descriptor came into the world.
   */
  lemma NamesFollowDescriptors(events: seq<Event>, slot: Slot)
    requires Possible(events) && At(After(events), slot).Holding()
    ensures At(After(events), slot).name == OpenedAs(events, At(After(events), slot).fd)
  {
    hide After, Possible;
    match slot
    case Registered(reg, name) => RegisteredAreNamed(events, reg, name);
    case Handle(id) => HandlesAreNamed(events, id);
  }

  /** Move assignment promises the contents of the other device; it keeps that promise exactly if the indices agree. */
  lemma AssignmentCompleteIff(target: Device, source: Device)
    ensures Assigned(target, source) == source <==> target.ifIndex == source.ifIndex
  {
  }

  // ---- The objects ----

  lemma {:induction false} CloseAllSnoc(k: Descriptors, devices: Registry, order: seq<string>, name: string)
    ensures
      var (k1, rest) := CloseAll(k, devices, order);
      CloseAll(k, devices, order + [name]) == CloseIn(k1, rest, name)
    decreases |order|
  {
    hide CloseIn;
    if order == [] {
      assert [name][1..] == [];
    } else {
      var (k1, rest) := CloseIn(k, devices, order[0]);
      CloseAllSnoc(k1, rest, order[1..], name);
      assert (order + [name])[1..] == order[1..] + [name];
    }
  }

  class Kernel {
    var table: Descriptors

    constructor ()
      ensures table == NO_DESCRIPTORS
    {
      table := NO_DESCRIPTORS;
    }
  }

  class TunDevice {
    var fd: int
    var ifIndex: int
    var name: string

    function View(): Device
      reads this
    {
      Device(fd, ifIndex, name)
    }

    constructor (fd: int, ifIndex: int, name: string)
      ensures View() == Device(fd, ifIndex, name)
    {
      this.fd, this.ifIndex, this.name := fd, ifIndex, name;
    }

    constructor Move(other: TunDevice)
      modifies other
      ensures View() == old(other.View()) && other.View() == MOVED_FROM
    {
      fd, ifIndex, name := other.fd, other.ifIndex, other.name;
      new;
      other.name := "";
      other.fd := -1;
      other.ifIndex := -1;
    }

    /** Safe even when an object is assigned to itself: its descriptor is closed and let go of. */
    method Assign(kernel: Kernel, rhs: TunDevice)
      modifies this, rhs, kernel
      ensures kernel.table == ReleaseDevice(old(kernel.table), old(View()))
      ensures this != rhs ==> View() == Assigned(old(View()), old(rhs.View()))
      ensures this != rhs ==> fd == old(rhs.fd) && name == old(rhs.name) && ifIndex == old(ifIndex)
      ensures rhs.View() == MOVED_FROM
    {
      Close(kernel);
      fd := rhs.fd;
      name := rhs.name;
      rhs.name := "";
      rhs.fd := -1;
      rhs.ifIndex := -1;
    }

    /** Also the destructor. */
    method Close(kernel: Kernel)
      modifies kernel
      ensures kernel.table == ReleaseDevice(old(kernel.table), View())
    {
      if fd >= 0 {
        kernel.table := CloseFd(kernel.table, fd);
      }
    }

    /** `answer` is what the `dup` system call returns; no device means an exception. */
    method Duplicate(kernel: Kernel, answer: int) returns (r: Option<TunDevice>)
      modifies kernel
      ensures r.Some? <==> answer >= 0
      ensures r.Some? ==> fresh(r.value) && r.value.View() == Device(answer, ifIndex, name)
      ensures kernel.table == if answer >= 0 then OpenFd(old(kernel.table), answer) else old(kernel.table)
    {
      if answer < 0 {
        return None;
      }
      kernel.table := OpenFd(kernel.table, answer);
      var device := new TunDevice(answer, ifIndex, name);
      r := Some(device);
    }
  }

  class TunRegistry {
    var devices: map<string, TunDevice>

    /** Each name has a device of its own. */
    ghost predicate Valid()
      reads this
    {
      forall x, y | x in devices && y in devices && x != y :: devices[x] != devices[y]
    }

    ghost function View(): Registry
      reads this, devices.Values
    {
      map name | name in devices :: devices[name].View()
    }

    constructor ()
      ensures Valid() && View() == map[]
    {
      devices := map[];
    }

    /** The default move: the other registry is left empty. */
    constructor Move(other: TunRegistry)
      requires other.Valid()
      modifies other
      ensures Valid() && View() == old(other.View()) && other.Valid() && other.View() == map[]
    {
      devices := other.devices;
      new;
      other.devices := map[];
    }

    /** The destructor: every device is destroyed, in some order. */
    method Destroy(kernel: Kernel) returns (order: seq<string>)
      requires Valid()
      modifies this, kernel
      ensures Valid() && devices == map[] && Covers(order, old(View()))
      ensures CloseAll(old(kernel.table), old(View()), order) == (kernel.table, map[])
    {
      order := [];
      while devices != map[]
        invariant Valid()
        invariant forall name | name in devices :: name in old(devices) && devices[name] == old(devices[name])
        invariant forall name | name in old(View()) && name !in order :: name in devices
        invariant CloseAll(old(kernel.table), old(View()), order) == (kernel.table, View())
        decreases |devices|
      {
        var name :| name in devices;
        var _ := CloseDevice(kernel, name);
        CloseAllSnoc(old(kernel.table), old(View()), order, name);
        order := order + [name];
      }
    }

    /** The default move assignment to another object. */
    method Assign(kernel: Kernel, rhs: TunRegistry) returns (order: seq<string>)
      requires Valid() && rhs.Valid() && this != rhs
      modifies this, rhs, kernel
      ensures Valid() && rhs.Valid() && Covers(order, old(View()))
      ensures CloseAll(old(kernel.table), old(View()), order) == (kernel.table, map[])
      ensures View() == old(rhs.View()) && rhs.View() == map[]
    {
      order := Destroy(kernel);
      devices := rhs.devices;
      rhs.devices := map[];
    }

    /** The last four parameters are what the system calls answer; no device means an exception. */
    method CreateDevice(kernel: Kernel, fd: int, ioctlOk: bool, ifName: string, ifIndex: int)
        returns (r: Option<TunDevice>)
      requires Valid()
      modifies this, kernel
      ensures Valid()
      ensures (kernel.table, View()) == CreateIn(old(kernel.table), old(View()), fd, ioctlOk, ifName, ifIndex)
      ensures r.Some? <==> fd >= 0 && ioctlOk
      ensures r.Some? ==> ifName in devices && devices[ifName] == r.value
    {
      if fd < 0 {
        return None;
      }
      kernel.table := OpenFd(kernel.table, fd);
      if !ioctlOk {
        kernel.table := CloseFd(kernel.table, fd);
        return None;
      }
      var device := new TunDevice(fd, ifIndex, ifName);
      Install(kernel, ifName, device);
      r := Some(device);
    }

    /** Assigning the map entry destroys the device that was there. */
    method Install(kernel: Kernel, name: string, device: TunDevice)
      requires Valid() && device !in devices.Values
      modifies this, kernel
      ensures Valid() && devices == old(devices)[name := device]
      ensures View() == old(View())[name := device.View()]
      ensures
        kernel.table
        == if name in old(View()) then ReleaseDevice(old(kernel.table), old(View()[name])) else old(kernel.table)
    {
      if name in devices {
        devices[name].Close(kernel);
      }
      devices := devices[name := device];
    }

    method FindDevice(name: string) returns (r: Option<TunDevice>)
      ensures r.Some? <==> Find(View(), name).Some?
      ensures r.Some? ==> name in devices && r.value == devices[name] && Find(View(), name) == Some(r.value.View())
    {
      if name in devices {
        r := Some(devices[name]);
      } else {
        r := None;
      }
    }

    method CloseDevice(kernel: Kernel, name: string) returns (existed: bool)
      requires Valid()
      modifies this, kernel
      ensures Valid()
      ensures existed <==> old(Find(View(), name)).Some?
      ensures devices == old(devices) - {name}
      ensures (kernel.table, View()) == CloseIn(old(kernel.table), old(View()), name)
    {
      existed := name in devices;
      if existed {
        devices[name].Close(kernel);
        devices := devices - {name};
        assert View() == old(View()) - {name};
      }
    }
  }
}
