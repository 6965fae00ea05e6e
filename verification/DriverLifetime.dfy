/** Who may change the driver hooks, and when: the reference count shared by driver instances and layer-2
    endpoints (`hisi_wpa_driver_port.c`, `l2_packet_ws63.c`, `driver_ws63.c`). */
module DriverLifetime {
  import opened Bytes

  const ABI_VERSION: nat := 9
  const EAPOL_ETHERTYPE: nat := 0x888e

  /** Pointers are numbers, 0 for null; there are ten callbacks. */
  datatype Hooks = Hooks(abiVersion: nat, reserved: nat, driver: nat, callbacks: seq<nat>)

  const NO_HOOKS := Hooks(0, 0, 0, [0, 0, 0, 0, 0, 0, 0, 0, 0, 0])

  predicate HooksValid(hooks: Option<Hooks>) {
    && hooks.Some? && hooks.value.abiVersion == ABI_VERSION && hooks.value.reserved == 0 && hooks.value.driver != 0
    && |hooks.value.callbacks| == 10 && 0 !in hooks.value.callbacks
  }

  /** The globals, the handles that are alive, and which endpoints receive. */
  datatype State<!D, !E> = State(installed: bool, hooks: Hooks, users: nat, receiver: Option<E>,
                                 drivers: set<D>, endpoints: set<E>, receiving: set<E>)

  /** Inputs of one call, with the outcome of allocation and of the address callback. A handle that an
      initialisation would return is named beforehand. */
  datatype Action<!D, !E> =
    | Install(wanted: Option<Hooks>)
    | Uninstall(driver: nat)
    | InitDriver(d: D, context: bool, memory: bool, address: bool)
    | DeinitDriver(oldDriver: Option<D>)
    | InitEndpoint(e: E, protocol: nat, receive: bool, memory: bool, ownAddress: bool, address: bool)
    | DeinitEndpoint(oldEndpoint: Option<E>)

  function Start<D, E>(): State<D, E> { State(false, NO_HOOKS, 0, None, {}, {}, {}) }

  // ----- the steps -----

  function InstallCode<D, E>(s: State<D, E>, hooks: Option<Hooks>): int {
    if !HooksValid(hooks) then -1
    else if s.installed then if s.hooks == hooks.value then 0 else -2
    else 0
  }

  function UninstallCode<D, E>(s: State<D, E>, driver: nat): int {
    if !s.installed || s.hooks.driver != driver then -1
    else if s.users != 0 || s.receiver.Some? then -2
    else 0
  }

  predicate DriverStarts<D, E>(s: State<D, E>, context: bool, memory: bool, address: bool) {
    s.installed && context && memory && address
  }

  predicate EndpointStarts<D, E>(s: State<D, E>, protocol: nat, receive: bool, memory: bool, ownAddress: bool,
                                 address: bool) {
    s.installed && protocol == EAPOL_ETHERTYPE && !(receive && s.receiver.Some?) && memory && (ownAddress || address)
  }

  function Released(users: nat): nat { if users != 0 then users - 1 else 0 }

  function WithDriver<D, E>(s: State<D, E>, d: D): State<D, E> {
    s.(users := s.users + 1, drivers := s.drivers + {d})
  }

  function WithoutDriver<D, E>(s: State<D, E>, d: D): State<D, E> {
    s.(users := Released(s.users), drivers := s.drivers - {d})
  }

  function WithEndpoint<D, E>(s: State<D, E>, e: E, receive: bool): State<D, E> {
    s.(users := s.users + 1, endpoints := s.endpoints + {e},
       receiver := if receive then Some(e) else s.receiver,
       receiving := if receive then s.receiving + {e} else s.receiving)
  }

  function WithoutEndpoint<D, E>(s: State<D, E>, e: E): State<D, E> {
    s.(users := Released(s.users), endpoints := s.endpoints - {e}, receiving := s.receiving - {e},
       receiver := if s.receiver == Some(e) then None else s.receiver)
  }

  function Next<D, E>(s: State<D, E>, action: Action<D, E>): State<D, E> {
    match action
    case Install(hooks) =>
      if InstallCode(s, hooks) == 0 && !s.installed then s.(hooks := hooks.value, installed := true) else s
    case Uninstall(driver) =>
      if UninstallCode(s, driver) == 0 then s.(hooks := NO_HOOKS, installed := false) else s
    case InitDriver(d, context, memory, address) =>
      if DriverStarts(s, context, memory, address) then WithDriver(s, d) else s
    case DeinitDriver(None) => s
    case DeinitDriver(Some(d)) => WithoutDriver(s, d)
    case InitEndpoint(e, protocol, receive, memory, ownAddress, address) =>
      if EndpointStarts(s, protocol, receive, memory, ownAddress, address) then WithEndpoint(s, e, receive) else s
    case DeinitEndpoint(None) => s
    case DeinitEndpoint(Some(e)) => WithoutEndpoint(s, e)
  }

  /** Handles are new when they are made and are released once. */
  predicate Proper<D, E>(s: State<D, E>, action: Action<D, E>) {
    match action
    case InitDriver(d, _, _, _) => d !in s.drivers
    case DeinitDriver(Some(d)) => d in s.drivers
    case InitEndpoint(e, _, _, _, _, _) => e !in s.endpoints
    case DeinitEndpoint(Some(e)) => e in s.endpoints
    case _ => true
  }

  /** The count is the number of handles alive; at most one endpoint receives, and it is counted; nothing
      is alive without hooks. */
  ghost predicate Sound<D, E>(s: State<D, E>) {
    && s.users == |s.drivers| + |s.endpoints|
    && s.receiving <= s.endpoints
    && s.receiving == (if s.receiver.Some? then {s.receiver.value} else {})
    && (s.users != 0 ==> s.installed)
    && (s.installed ==> HooksValid(Some(s.hooks)))
  }

  lemma DriverSound<D, E>(s: State<D, E>, d: D)
    requires Sound(s)
    ensures d !in s.drivers && s.installed ==> Sound(WithDriver(s, d))
    ensures d in s.drivers ==> Sound(WithoutDriver(s, d))
  {
    if d in s.drivers {
      assert |s.drivers - {d}| == |s.drivers| - 1;
    } else {
      assert |s.drivers + {d}| == |s.drivers| + 1;
    }
  }

  lemma EndpointAdded<D, E>(s: State<D, E>, e: E, receive: bool)
    requires Sound(s) && e !in s.endpoints && s.installed && !(receive && s.receiver.Some?)
    ensures Sound(WithEndpoint(s, e, receive))
  {
    assert |s.endpoints + {e}| == |s.endpoints| + 1;
    assert {} + {e} == {e};
  }

  lemma EndpointRemoved<D, E>(s: State<D, E>, e: E)
    requires Sound(s) && e in s.endpoints
    ensures Sound(WithoutEndpoint(s, e))
  {
    assert |s.endpoints - {e}| == |s.endpoints| - 1;
    if s.receiver == Some(e) {
      assert {e} - {e} == {};
    } else {
      assert s.receiving - {e} == s.receiving;
    }
  }

  lemma NextSound<D, E>(s: State<D, E>, action: Action<D, E>)
    requires Sound(s) && Proper(s, action)
    ensures Sound(Next(s, action))
  {
    hide WithDriver, WithoutDriver, WithEndpoint, WithoutEndpoint;
    match action
    case InitDriver(d, _, _, _) => DriverSound(s, d);
    case DeinitDriver(Some(d)) => DriverSound(s, d);
    case InitEndpoint(e, protocol, receive, memory, ownAddress, address) =>
      if EndpointStarts(s, protocol, receive, memory, ownAddress, address) { EndpointAdded(s, e, receive); }
    case DeinitEndpoint(Some(e)) => EndpointRemoved(s, e);
    case _ =>
  }

  // ----- runs -----

  function Run<D, E>(s: State<D, E>, actions: seq<Action<D, E>>): State<D, E>
    decreases |actions|
  {
    if actions == [] then s else Run(Next(s, actions[0]), actions[1..])
  }

  predicate ProperRun<D, E>(s: State<D, E>, actions: seq<Action<D, E>>)
    decreases |actions|
  {
    actions == [] || (Proper(s, actions[0]) && ProperRun(Next(s, actions[0]), actions[1..]))
  }

  lemma {:induction false} RunSound<D, E>(s: State<D, E>, actions: seq<Action<D, E>>)
    requires Sound(s) && ProperRun(s, actions)
    ensures Sound(Run(s, actions))
    decreases |actions|
  {
    hide Sound, Next, Proper;
    if actions != [] {
      NextSound(s, actions[0]);
      RunSound(Next(s, actions[0]), actions[1..]);
    }
  }

  /** Over every run: the count is exact, at most one endpoint receives, the owner can uninstall exactly when
      no handle is alive, and the uninstall's second test adds nothing to the first. */
  lemma EveryRun<D, E>(actions: seq<Action<D, E>>, driver: nat)
    requires ProperRun(Start(), actions)
    ensures var s := Run(Start(), actions);
            && s.users == |s.drivers| + |s.endpoints|
            && |s.receiving| <= 1 && (s.receiver.Some? <==> s.receiving != {})
            && (s.installed && s.hooks.driver == driver ==>
                  (UninstallCode(s, driver) == 0 <==> s.drivers == {} && s.endpoints == {}))
            && (s.receiver.Some? ==> s.users != 0)
  {
    RunSound(Start<D, E>(), actions);
    var s := Run(Start(), actions);
    if s.receiver.Some? {
      assert s.receiver.value in s.endpoints;
    }
  }

  /** Ten callbacks, a driver, no reserved bits and version 9. */
  ghost predicate Complete(h: Hooks) {
    && h.abiVersion == 9 && h.reserved == 0 && h.driver > 0 && |h.callbacks| == 10
    && forall i :: 0 <= i < 10 ==> h.callbacks[i] > 0
  }

  /** After every run, what the next installation and the next uninstallation do: hooks come in once, and go only
      with the owner's call while no handle is alive. */
  lemma HooksExact<D, E>(actions: seq<Action<D, E>>, wanted: Option<Hooks>, driver: nat)
    requires ProperRun(Start(), actions)
    ensures var s := Run(Start(), actions);
            var (install, uninstall) := (InstallCode(s, wanted), UninstallCode(s, driver));
            var after, gone := Next(s, Install(wanted)), Next(s, Uninstall(driver));
            && (install == -1 <==> wanted.None? || !Complete(wanted.value))
            && (install == -2 <==> wanted.Some? && Complete(wanted.value) && s.installed && s.hooks != wanted.value)
            && install in {0, -1, -2} && (install != 0 ==> after == s)
            && (install == 0 ==> after == s.(installed := true, hooks := wanted.value))
            && (uninstall == -1 <==> !s.installed || s.hooks.driver != driver)
            && (uninstall == -2 <==> s.installed && s.hooks.driver == driver && (s.drivers != {} || s.endpoints != {}))
            && uninstall in {0, -1, -2} && (uninstall != 0 ==> gone == s)
            && (uninstall == 0 ==> gone == s.(installed := false, hooks := gone.hooks))
  {
    RunSound(Start<D, E>(), actions);
    EveryRun(actions, driver);
    if wanted.Some? {
      CompleteIsValid(wanted.value);
    }
  }

  lemma CompleteIsValid(h: Hooks)
    ensures Complete(h) <==> HooksValid(Some(h))
  {
    if HooksValid(Some(h)) {
      forall i | 0 <= i < 10
        ensures h.callbacks[i] > 0
      {
        assert h.callbacks[i] in h.callbacks;
      }
    }
  }

  /** After every run, when a handle comes alive: a driver if hooks are installed and nothing it needs is refused;
      an endpoint, besides, only for protocol 0x888e, and to receive only while no other one receives. */
  lemma HandlesExact<D, E>(actions: seq<Action<D, E>>, d: D, e: E, protocol: nat, receive: bool, context: bool,
                           memory: bool, ownAddress: bool, address: bool)
    requires ProperRun(Start(), actions)
    ensures var s := Run(Start(), actions);
            var driven := Next(s, InitDriver(d, context, memory, address));
            var joined := Next(s, InitEndpoint(e, protocol, receive, memory, ownAddress, address));
            && (d !in s.drivers ==> (d in driven.drivers <==> s.installed && context && memory && address))
            && driven == s.(drivers := driven.drivers, users := driven.users) && driven.drivers <= s.drivers + {d}
            && (e !in s.endpoints ==>
                  (e in joined.endpoints <==>
                     && s.installed && memory && protocol == 0x888e
                     && (receive ==> s.receiving == {}) && (ownAddress || address)))
            && (e !in s.endpoints ==> (e in joined.receiving <==> e in joined.endpoints && receive))
            && joined.drivers == s.drivers && joined.hooks == s.hooks && joined.endpoints <= s.endpoints + {e}
  {
    RunSound(Start<D, E>(), actions);
    var s := Run(Start<D, E>(), actions);
    if s.receiver.Some? {
      assert s.receiver.value in s.receiving;
    }
  }

  predicate Alive<D, E>(s: State<D, E>, d: Option<D>, e: Option<E>) {
    (d.Some? && d.value in s.drivers) || (e.Some? && e.value in s.endpoints)
  }

  /** The handle is not released by the run. */
  ghost predicate Spares<D, E>(actions: seq<Action<D, E>>, d: Option<D>, e: Option<E>) {
    forall i :: 0 <= i < |actions| ==>
      match actions[i]
      case DeinitDriver(Some(x)) => d != Some(x)
      case DeinitEndpoint(Some(x)) => e != Some(x)
      case _ => true
  }

  /** While a handle stays alive, no run changes the hooks. */
  lemma {:induction false} HooksFixed<D, E>(s: State<D, E>, actions: seq<Action<D, E>>, d: Option<D>, e: Option<E>)
    requires Sound(s) && ProperRun(s, actions) && Alive(s, d, e) && Spares(actions, d, e)
    ensures Run(s, actions).installed && Run(s, actions).hooks == s.hooks && Alive(Run(s, actions), d, e)
    decreases |actions|
  {
    hide Sound, Next, Proper, Alive;
    if actions != [] {
      SparesSplit(actions, d, e);
      NextSound(s, actions[0]);
      HooksFixedStep(s, actions[0], d, e);
      HooksFixed(Next(s, actions[0]), actions[1..], d, e);
    } else {
      AliveCounts(s, d, e);
    }
  }

  lemma SparesSplit<D, E>(actions: seq<Action<D, E>>, d: Option<D>, e: Option<E>)
    requires actions != [] && Spares(actions, d, e)
    ensures Spares([actions[0]], d, e) && Spares(actions[1..], d, e)
  {
    assert forall i :: 0 <= i < |actions[1..]| ==> actions[1..][i] == actions[i + 1];
  }

  lemma AliveCounts<D, E>(s: State<D, E>, d: Option<D>, e: Option<E>)
    requires Sound(s) && Alive(s, d, e)
    ensures s.users != 0 && s.installed
  {
  }

  lemma HooksFixedStep<D, E>(s: State<D, E>, action: Action<D, E>, d: Option<D>, e: Option<E>)
    requires Sound(s) && Alive(s, d, e) && Spares([action], d, e)
    ensures Next(s, action).hooks == s.hooks && Alive(Next(s, action), d, e)
  {
    AliveCounts(s, d, e);
    assert [action][0] == action;
  }

  // ----- the code -----

  class DriverData {
    var hooks: Hooks

    constructor (hooks: Hooks)
      ensures this.hooks == hooks
    {
      this.hooks := hooks;
    }
  }

  class Endpoint {
    var protocol: nat
    var receive: bool

    constructor ()
      ensures !receive
    {
      protocol, receive := 0, false;
    }
  }

  function DriverHandle(d: DriverData?): Option<DriverData> {
    if d == null then None else (var x: DriverData := d; Some(x))
  }

  function EndpointHandle(e: Endpoint?): Option<Endpoint> {
    if e == null then None else (var x: Endpoint := e; Some(x))
  }

  /** The file-scope variables of the port and of layer 2. */
  class Port {
    var hooks: Hooks
    var installed: bool
    var users: nat
    var receiver: Endpoint?
    ghost var drivers: set<DriverData>
    ghost var endpoints: set<Endpoint>

    ghost function View(): State<DriverData, Endpoint>
      reads this, endpoints
    {
      State(installed, hooks, users, EndpointHandle(receiver), drivers, endpoints, Receiving())
    }

    ghost function Receiving(): set<Endpoint>
      reads this`endpoints, endpoints
    {
      set e | e in endpoints && e.receive
    }

    /** Besides, every live driver's copy of the hooks is the installed one. */
    ghost predicate Valid()
      reads this, drivers, endpoints
    {
      Sound(View()) && forall d :: d in drivers ==> d.hooks == hooks
    }

    constructor ()
      ensures Valid() && View() == Start()
    {
      hooks, installed, users, receiver := NO_HOOKS, false, 0, null;
      drivers, endpoints := {}, {};
    }

    method DriverInstall(wanted: Option<Hooks>) returns (code: int)
      requires Valid()
      modifies this
      ensures Valid() && View() == Next(old(View()), Install(wanted)) && code == InstallCode(old(View()), wanted)
    {
      if !HooksValid(wanted) { return -1; }
      if installed { return if hooks == wanted.value then 0 else -2; }
      NoneAlive();
      hooks := wanted.value;
      installed := true;
      return 0;
    }

    lemma NoneAlive()
      requires Valid() && users == 0
      ensures drivers == {} && endpoints == {}
    {
    }

    method DriverUninstall(driver: nat) returns (code: int)
      requires Valid()
      modifies this
      ensures Valid() && View() == Next(old(View()), Uninstall(driver)) && code == UninstallCode(old(View()), driver)
    {
      if !installed || hooks.driver != driver { return -1; }
      if users != 0 || receiver != null { return -2; }
      NoneAlive();
      hooks := NO_HOOKS;
      installed := false;
      return 0;
    }

    method Acquire() returns (current: Option<Hooks>)
      modifies `users
      ensures current == if installed then Some(hooks) else None
      ensures users == if installed then old(users) + 1 else old(users)
    {
      if !installed { return None; }
      users := users + 1;
      return Some(hooks);
    }

    method Release()
      modifies `users
      ensures users == Released(old(users))
    {
      if users != 0 { users := users - 1; }
    }

    /** `ws63_init`. */
    method InitDriver(context: bool, memory: bool, address: bool) returns (d: DriverData?)
      requires Valid()
      modifies this
      ensures Valid()
      ensures d != null <==> DriverStarts(old(View()), context, memory, address)
      ensures d == null ==> View() == old(View())
      ensures d != null ==> fresh(d) && View() == Next(old(View()), Action.InitDriver(d, context, memory, address))
    {
      var current := Acquire();
      if current.None? || !context || !memory {
        if current.Some? { Release(); }
        return null;
      }
      d := new DriverData(current.value);
      if !address {
        Release();
        return null;
      }
      drivers := drivers + {d};
      NextSound(old(View()), Action.InitDriver(d, context, memory, address));
    }

    /** `ws63_deinit`. */
    method DeinitDriver(d: DriverData?)
      requires Valid() && (d == null || d in drivers)
      modifies this
      ensures Valid()
      ensures View() == Next(old(View()), Action.DeinitDriver(DriverHandle(d)))
    {
      if d == null { return; }
      NextSound(View(), Action.DeinitDriver(DriverHandle(d)));
      drivers := drivers - {d};
      Release();
    }

    /** `l2_packet_init`. */
    method InitEndpoint(protocol: nat, receive: bool, memory: bool, ownAddress: bool, address: bool)
      returns (l2: Endpoint?)
      requires Valid()
      modifies this
      ensures Valid()
      ensures l2 != null <==> EndpointStarts(old(View()), protocol, receive, memory, ownAddress, address)
      ensures l2 == null ==> View() == old(View())
      ensures l2 != null ==> fresh(l2) && l2.protocol == protocol && l2.receive == receive
      ensures l2 != null ==> View() == Next(old(View()),
                                            Action.InitEndpoint(l2, protocol, receive, memory, ownAddress, address))
    {
      hide Receiving, Sound;
      var current := Acquire();
      if current.None? { return null; }
      if protocol != EAPOL_ETHERTYPE || (receive && receiver != null) {
        Release();
        return null;
      }
      if !memory {
        Release();
        return null;
      }
      l2 := new Endpoint();
      if !ownAddress && !address {
        Release();
        return null;
      }
      Attach(l2, protocol, receive);
      NextSound(old(View()), Action.InitEndpoint(l2, protocol, receive, memory, ownAddress, address));
    }

    /** The end of `l2_packet_init`: a receiving endpoint becomes the one that receives. */
    method Attach(l2: Endpoint, protocol: nat, receive: bool)
      requires l2 !in endpoints
      modifies this`receiver, this`endpoints, l2
      ensures receiver == (if receive then l2 else old(receiver)) && endpoints == old(endpoints) + {l2}
      ensures l2.protocol == protocol && l2.receive == receive
      ensures Receiving() == if receive then old(Receiving()) + {l2} else old(Receiving())
    {
      l2.protocol := protocol;
      l2.receive := receive;
      if receive { receiver := l2; }
      endpoints := endpoints + {l2};
    }

    /** The end of `l2_packet_deinit` before the release. */
    method Detach(l2: Endpoint)
      requires l2 in endpoints
      modifies this`receiver, this`endpoints, l2
      ensures receiver == (if old(receiver) == l2 then null else old(receiver)) && endpoints == old(endpoints) - {l2}
      ensures Receiving() == old(Receiving()) - {l2}
    {
      if receiver == l2 { receiver := null; }
      endpoints := endpoints - {l2};
      l2.protocol, l2.receive := 0, false;
    }

    /** `l2_packet_deinit`. */
    method DeinitEndpoint(l2: Endpoint?)
      requires Valid() && (l2 == null || l2 in endpoints)
      modifies this, l2
      ensures Valid()
      ensures View() == Next(old(View()), Action.DeinitEndpoint(EndpointHandle(l2)))
    {
      if l2 == null { return; }
      NextSound(View(), Action.DeinitEndpoint(EndpointHandle(l2)));
      hide Receiving, Sound;
      Detach(l2);
      Release();
    }

    /** `hisi_wpa_l2_feed`: a frame reaches the one endpoint that receives. */
    method Feed(source: bool, frame: Option<nat>) returns (code: int, reached: Endpoint?)
      requires Valid()
      ensures code == if receiver == null then -3 else if !source || frame.None? || frame.value == 0 then -4 else 0
      ensures reached != null <==> code == 0
      ensures code == 0 ==> reached in endpoints && reached.receive && forall e :: e in endpoints && e.receive ==>
                e == reached
    {
      if receiver == null { return -3, null; }
      if !source || frame.None? || frame.value == 0 { return -4, null; }
      assert receiver in View().receiving;
      assert forall e :: e in endpoints && e.receive ==> e in View().receiving;
      return 0, receiver;
    }
  }
}
