/** The UDP controller server: four slots that a receive loop, a timeout sweep and user
    commands change in turns. Every section that holds the slots' lock is one step, and
    steps of different activities may come in any order. */
module ControllerServer {
  import opened Wrappers
  import opened Bytes
  import opened Lists

  const MAX_CLIENTS: nat := 4
  const BUF_LEN: nat := 1024
  const DEVICE_LEN: nat := 28

  datatype Addr = Addr(ip: string, port: nat)

  /** Times are in nanoseconds. */
  datatype Slot = Slot(occupied: bool, number: Option<nat>, lastSequence: nat, addr: Option<Addr>, time: Option<int>)

  const FREE: Slot := Slot(false, None, 0, None, None)

  datatype Client = Client(ip: string, slot: nat)

  /** Where the receive loop stands between two lock sections: waiting for a packet, a
      slot acquired whose address is to be stored, stored and to be listed, a packet
      chosen that is to be executed, a client that is to be released. */
  datatype Pending = Idle | Stamping(slot: nat, from: Addr) | Listing(slot: nat, from: Addr) | Executing(slot: nat)
    | Leaving(slot: nat)

  datatype State = State(slots: seq<Slot>, clients: seq<Client>, buf: seq<byte>, device: seq<byte>, pending: Pending)

  // ----------------------------------------------------------------------
  // The steps
  // ----------------------------------------------------------------------

  /** `b as usize - 1` in a release build: zero wraps around. */
  function SlotIndex(b: byte): nat {
    if b == 0 then 0xFFFF_FFFF_FFFF_FFFF else b - 1
  }

  function Received(buf: seq<byte>, data: seq<byte>): seq<byte>
    requires |data| <= |buf|
  {
    data + buf[|data|..]
  }

  function LowestFree(slots: seq<Slot>, start: nat := 0): (r: Option<nat>)
    requires start <= |slots|
    ensures r.None? <==> forall i :: start <= i < |slots| ==> slots[i].occupied
    ensures r.Some? ==> start <= r.value < |slots| && !slots[r.value].occupied
    ensures r.Some? ==> forall i :: start <= i < r.value ==> slots[i].occupied
    decreases |slots| - start
  {
    if start == |slots| then None
    else if !slots[start].occupied then Some(start)
    else LowestFree(slots, start + 1)
  }

  predicate Holds(s: Slot, addr: Addr) {
    s.occupied && s.addr == Some(addr)
  }

  function Sequence(buf: seq<byte>): nat
    requires |buf| == BUF_LEN
  {
    FromLe(buf[2..6])
  }

  predicate Shape(s: State) {
    |s.slots| == MAX_CLIENTS && |s.buf| == BUF_LEN && |s.device| == DEVICE_LEN
  }

  function OnConnect(s: State, addr: Addr): State {
    match LowestFree(s.slots)
    case None => s
    case Some(i) =>
      s.(slots := s.slots[i := s.slots[i].(occupied := true, number := Some(i + 1), lastSequence := 0)],
         pending := Stamping(i, addr))
  }

  function OnData(s: State, addr: Addr, now: int): State
    requires Shape(s)
  {
    var i := SlotIndex(s.buf[1]);
    if i >= MAX_CLIENTS || !Holds(s.slots[i], addr) then s
    else
      var heard := s.slots[i].(time := Some(now));
      if Sequence(s.buf) > heard.lastSequence then
        s.(slots := s.slots[i := heard.(lastSequence := Sequence(s.buf))], pending := Executing(i))
      else s.(slots := s.slots[i := heard])
  }

  function OnDisconnect(s: State, addr: Addr): State
    requires Shape(s)
  {
    var i := SlotIndex(s.buf[1]);
    if i >= MAX_CLIENTS || !Holds(s.slots[i], addr) then s else s.(pending := Leaving(i))
  }

  function OnHeartbeat(s: State, addr: Addr, now: int): State
    requires Shape(s)
  {
    var i := SlotIndex(s.buf[1]);
    if i >= MAX_CLIENTS || !Holds(s.slots[i], addr) then s
    else s.(slots := s.slots[i := s.slots[i].(time := Some(now))])
  }

  function OnPacket(s: State, len: nat, addr: Addr, now: int): State
    requires Shape(s)
  {
    if len == 0 then s
    else if s.buf[0] == 0 then OnConnect(s, addr)
    else if s.buf[0] == 1 && len >= 22 then OnData(s, addr, now)
    else if s.buf[0] == 2 then OnDisconnect(s, addr)
    else if s.buf[0] == 4 then OnHeartbeat(s, addr, now)
    else s
  }

  /** `id - 1` wraps around for zero, which then names no slot and no client. */
  function ReleaseSlot(s: State, id: nat): State {
    if id == 0 then s
    else
      s.(clients := Without(s.clients, id - 1),
         slots := if id - 1 < |s.slots| then s.slots[id - 1 := FREE] else s.slots)
  }

  datatype Gamepad = Gamepad(buttons: nat, leftTrigger: byte, rightTrigger: byte, lx: int, ly: int, rx: int, ry: int)

  function Int16(s: seq<byte>): int
    requires |s| == 2
  {
    if FromLe(s) < 0x8000 then FromLe(s) else FromLe(s) - 0x1_0000
  }

  function Int16Bytes(n: int): seq<byte> {
    ToLe(n % 0x1_0000, 2)
  }

  function ParseGamepad(buf: seq<byte>): Gamepad
    requires |buf| == BUF_LEN
  {
    Gamepad(FromLe(buf[6..8]), buf[8], buf[9],
            Int16(buf[10..12]), Int16(buf[12..14]), Int16(buf[14..16]), Int16(buf[16..18]))
  }

  /** The structure as it lies in memory. */
  function GamepadBytes(g: Gamepad): (s: seq<byte>)
    ensures |s| == 12
  {
    ToLe(g.buttons, 2) + [g.leftTrigger, g.rightTrigger]
    + Int16Bytes(g.lx) + Int16Bytes(g.ly) + Int16Bytes(g.rx) + Int16Bytes(g.ry)
  }

  /** The device buffer as it goes to the bus. */
  function Report(s: State, slot: nat): (r: seq<byte>)
    requires Shape(s)
    ensures |r| == DEVICE_LEN
  {
    s.device[..4] + ToLe(slot + 1, 4) + s.device[8..10] + GamepadBytes(ParseGamepad(s.buf)) + s.device[22..]
  }

  datatype Event =
    | Packet(data: seq<byte>, addr: Addr, now: int)
    | Stamp(now: int)
    | List
    | Execute
    | Leave
    | Release(id: nat)

  /** One step; an event that the receive loop is not ready for changes nothing. */
  function Step(s: State, e: Event): (t: State)
    requires Shape(s) && PendingInRange(s)
    ensures Shape(t) && PendingInRange(t)
  {
    match e
    case Packet(data, addr, now) =>
      if s.pending.Idle? && |data| <= BUF_LEN then OnPacket(s.(buf := Received(s.buf, data)), |data|, addr, now) else s
    case Stamp(now) =>
      if s.pending.Stamping? then
        var i := s.pending.slot;
        s.(slots := s.slots[i := s.slots[i].(addr := Some(s.pending.from), time := Some(now))],
           pending := Listing(i, s.pending.from))
      else s
    case List =>
      if s.pending.Listing? then
        s.(clients := if |s.clients| >= 4 then s.clients else s.clients + [Client(s.pending.from.ip, s.pending.slot + 1)],
           pending := Idle)
      else s
    case Execute =>
      if s.pending.Executing? then s.(device := Report(s, s.pending.slot), pending := Idle) else s
    case Leave =>
      if s.pending.Leaving? then ReleaseSlot(s, s.pending.slot + 1).(pending := Idle) else s
    case Release(id) => ReleaseSlot(s, id)
  }

  predicate PendingInRange(s: State) {
    !s.pending.Idle? ==> s.pending.slot < MAX_CLIENTS
  }

  function Initial(): (s: State)
    ensures Shape(s) && PendingInRange(s)
  {
    State(seq(MAX_CLIENTS, _ => FREE), [], seq(BUF_LEN, _ => 0),
          seq(DEVICE_LEN, i => if i == 0 then 0x1C else if i == 9 then 0x14 else 0), Idle)
  }

  const TIMEOUT: int := 3000

  /** Whole milliseconds since a moment, zero for one to come. */
  function Millis(now: int, since: int): int {
    if now < since then 0 else (now - since) / 1_000_000
  }

  predicate Silent(s: Slot, now: int) {
    s.occupied && s.time.Some? && Millis(now, s.time.value) > TIMEOUT
  }

  /** Those of the first `n` slots that have been silent for too long. */
  function SilentSlots(slots: seq<Slot>, now: int, n: nat): seq<nat>
    requires n <= |slots|
  {
    if n == 0 then [] else SilentSlots(slots, now, n - 1) + (if Silent(slots[n - 1], now) then [n - 1] else [])
  }

  function ReleaseAll(s: State, indices: seq<nat>): (t: State)
    ensures |t.slots| == |s.slots|
  {
    if indices == [] then s
    else ReleaseSlot(ReleaseAll(s, indices[..|indices| - 1]), indices[|indices| - 1] + 1)
  }

  // ----------------------------------------------------------------------
  // The server
  // ----------------------------------------------------------------------

  class Server {
    const slots: array<Slot>
    const buf: array<byte>
    const device: array<byte>
    var clients: seq<Client>
    var pending: Pending

    ghost predicate Valid()
      reads this, slots
    {
      && slots.Length == MAX_CLIENTS && buf.Length == BUF_LEN && device.Length == DEVICE_LEN
      && buf != device
      && (!pending.Idle? ==> pending.slot < MAX_CLIENTS)
    }

    ghost function Model(): State
      reads this, slots, buf, device
    {
      State(slots[..], clients, buf[..], device[..], pending)
    }

    constructor ()
      ensures Valid() && Model() == Initial()
      ensures fresh(slots) && fresh(buf) && fresh(device)
    {
      slots := new Slot[MAX_CLIENTS](_ => FREE);
      buf := new byte[BUF_LEN](_ => 0);
      device := new byte[DEVICE_LEN](_ => 0);
      clients, pending := [], Idle;
      new;
      device[0], device[9] := 0x1C, 0x14;
    }

    method AcquireClientSlot() returns (r: Option<nat>)
      requires Valid()
      modifies slots
      ensures Valid()
      ensures r == LowestFree(old(slots[..]))
      ensures r.None? ==> slots[..] == old(slots[..])
      ensures r.Some? ==>
                slots[..] == old(slots[..])[r.value := old(slots[r.value]).(occupied := true,
                                                        number := Some(r.value + 1), lastSequence := 0)]
    {
      for i := 0 to slots.Length
        invariant slots[..] == old(slots[..])
        invariant LowestFree(slots[..]) == LowestFree(slots[..], i)
      {
        if !slots[i].occupied {
          slots[i] := slots[i].(occupied := true, number := Some(i + 1), lastSequence := 0);
          return Some(i);
        }
      }
      return None;
    }

    method DisconnectClient(index: nat)
      modifies `clients
      ensures clients == Without(old(clients), index)
    {
      if index < |clients| {
        clients := clients[..index] + clients[index + 1..];
      }
    }

    method ReleaseClientSlot(id: nat)
      requires Valid()
      modifies `clients, slots
      ensures Valid()
      ensures Model() == ReleaseSlot(old(Model()), id)
    {
      if id != 0 {
        DisconnectClient(id - 1);
        if id - 1 < MAX_CLIENTS {
          slots[id - 1] := FREE;
        }
      }
    }

    /** A packet arrives in the buffer, over what earlier packets have left there, and
        is taken through its first lock section. */
    method Receive(data: seq<byte>, addr: Addr, now: int)
      requires Valid() && pending.Idle? && |data| <= BUF_LEN
      modifies this, slots, buf
      ensures Valid()
      ensures Model() == Step(old(Model()), Packet(data, addr, now))
    {
      hide LowestFree, FromLe;
      forall i | 0 <= i < |data| {
        buf[i] := data[i];
      }
      assert buf[..] == Received(old(buf[..]), data);
      assert slots[..] == old(slots[..]) && device[..] == old(device[..]);
      if |data| == 0 {
        return;
      }
      if buf[0] == 0 {
        ConnectSection(addr);
      } else if buf[0] == 1 && |data| >= 22 {
        DataSection(addr, now);
      } else if buf[0] == 2 {
        var i := SlotIndex(buf[1]);
        if i < MAX_CLIENTS && slots[i].occupied && slots[i].addr == Some(addr) {
          pending := Leaving(i);
        }
      } else if buf[0] == 4 {
        var i := SlotIndex(buf[1]);
        if i < MAX_CLIENTS && slots[i].occupied && slots[i].addr == Some(addr) {
          slots[i] := slots[i].(time := Some(now));
        }
      }
    }

    method ConnectSection(addr: Addr)
      requires Valid() && pending.Idle?
      modifies `pending, slots
      ensures Valid()
      ensures Model() == OnConnect(old(Model()), addr)
    {
      hide LowestFree;
      var r := AcquireClientSlot();
      if r.Some? {
        pending := Stamping(r.value, addr);
        assert Model().slots == OnConnect(old(Model()), addr).slots;
      }
    }

    method DataSection(addr: Addr, now: int)
      requires Valid() && pending.Idle?
      modifies `pending, slots
      ensures Valid()
      ensures Model() == OnData(old(Model()), addr, now)
    {
      var i := SlotIndex(buf[1]);
      if i < MAX_CLIENTS && slots[i].occupied && slots[i].addr == Some(addr) {
        slots[i] := slots[i].(time := Some(now));
        var sequence := FromLe(buf[2..6]);
        if sequence > slots[i].lastSequence {
          slots[i] := slots[i].(lastSequence := sequence);
          pending := Executing(i);
        }
      }
    }

    /** The second lock section of a connect. */
    method StampSlot(now: int)
      requires Valid() && pending.Stamping?
      modifies `pending, slots
      ensures Valid()
      ensures Model() == Step(old(Model()), Stamp(now))
    {
      var i, addr := pending.slot, pending.from;
      slots[i] := slots[i].(addr := Some(addr));
      slots[i] := slots[i].(time := Some(now));
      pending := Listing(i, addr);
    }

    method AddConnectedClient()
      requires Valid() && pending.Listing?
      modifies `pending, `clients
      ensures Valid()
      ensures Model() == Step(old(Model()), List)
    {
      if |clients| < 4 {
        clients := clients + [Client(pending.from.ip, pending.slot + 1)];
      }
      pending := Idle;
    }

    /** Outside of the lock: the chosen packet goes to the bus. */
    method ExecuteChosen() returns (report: seq<byte>)
      requires Valid() && pending.Executing?
      modifies `pending, device
      ensures Valid()
      ensures Model() == Step(old(Model()), Execute)
      ensures report == device[..]
    {
      hide GamepadBytes, ParseGamepad;
      var gamepad := ParseGamepad(buf[..]);
      var id := pending.slot + 1;
      WriteId(id);
      CopyGamepad(GamepadBytes(gamepad));
      Splice(old(device[..]), ToLe(id, 4), GamepadBytes(gamepad));
      assert device[..] == Report(old(Model()), old(pending.slot));
      pending := Idle;
      report := device[..];
    }

    method WriteId(id: nat)
      requires Valid()
      modifies device
      ensures device[..] == old(device[..4]) + ToLe(id, 4) + old(device[8..])
    {
      ghost var le := ToLe(id, 4);
      IdBytes(id);
      device[4] := id % 256;
      device[5] := id / 256 % 256;
      device[6] := id / 65536 % 256;
      device[7] := id / 16777216 % 256;
      ghost var want := old(device[..4]) + le + old(device[8..]);
      forall k | 0 <= k < DEVICE_LEN
        ensures device[k] == want[k]
      {
        if 4 <= k < 8 {
          assert want[k] == le[k - 4];
        }
      }
      assert device[..] == want;
    }

    method CopyGamepad(bytes: seq<byte>)
      requires Valid() && |bytes| == 12
      modifies device
      ensures device[..] == old(device[..10]) + bytes + old(device[22..])
    {
      forall k | 0 <= k < 12 {
        device[10 + k] := bytes[k];
      }
    }

    method LeaveSlot()
      requires Valid() && pending.Leaving?
      modifies `pending, `clients, slots
      ensures Valid()
      ensures Model() == Step(old(Model()), Leave)
    {
      ReleaseClientSlot(pending.slot + 1);
      pending := Idle;
    }

    /** The scan of the timeout sweep. */
    method ScanSilent(now: int) returns (toRemove: seq<nat>)
      requires Valid()
      ensures toRemove == SilentSlots(slots[..], now, MAX_CLIENTS)
    {
      toRemove := [];
      for i := 0 to slots.Length
        invariant toRemove == SilentSlots(slots[..], now, i)
      {
        if slots[i].occupied {
          match slots[i].time {
            case None =>
            case Some(t) =>
              if Millis(now, t) > TIMEOUT {
                toRemove := toRemove + [i];
              }
          }
        }
      }
    }

    /** The timeout sweep with nothing in between. */
    method Sweep(now: int)
      requires Valid()
      modifies `clients, slots
      ensures Valid()
      ensures Model() == ReleaseAll(old(Model()), SilentSlots(old(slots[..]), now, MAX_CLIENTS))
    {
      var toRemove := ScanSilent(now);
      ghost var s := Model();
      for k := 0 to |toRemove|
        invariant Valid()
        invariant Model() == ReleaseAll(s, toRemove[..k])
      {
        assert toRemove[..k + 1][..k] == toRemove[..k];
        ReleaseClientSlot(toRemove[k] + 1);
      }
      assert toRemove[..|toRemove|] == toRemove;
    }

    method CancelAllClients()
      requires Valid()
      modifies `clients, slots
      ensures Valid()
      ensures forall i :: 0 <= i < MAX_CLIENTS ==>
                slots[i] == if old(slots[i].occupied) then FREE else old(slots[i])
    {
      for i := 0 to MAX_CLIENTS
        invariant Valid()
        invariant forall k :: 0 <= k < MAX_CLIENTS ==>
                    slots[k] == if k < i && old(slots[k].occupied) then FREE else old(slots[k])
      {
        var occupied := slots[i].occupied;
        if occupied {
          ghost var before := slots[..];
          ReleaseClientSlot(i + 1);
          assert slots[..] == before[i := FREE];
        }
      }
    }
  }

  lemma Splice(device: seq<byte>, id: seq<byte>, gamepad: seq<byte>)
    requires |device| == DEVICE_LEN && |id| == 4 && |gamepad| == 12
    ensures var named := device[..4] + id + device[8..];
            named[..10] + gamepad + named[22..] == device[..4] + id + device[8..10] + gamepad + device[22..]
  {}

  lemma IdBytes(id: nat)
    ensures ToLe(id, 4) == [id % 256, id / 256 % 256, id / 65536 % 256, id / 16777216 % 256]
  {
    assert id / 256 / 256 == id / 65536;
    assert id / 65536 / 256 == id / 16777216;
    assert ToLe(id, 4) == [(id % 256) as byte] + ToLe(id / 256, 3);
    assert ToLe(id / 256, 3) == [(id / 256 % 256) as byte] + ToLe(id / 65536, 2);
    assert ToLe(id / 65536, 2) == [(id / 65536 % 256) as byte] + ToLe(id / 16777216, 1);
    assert ToLe(id / 16777216, 1) == [(id / 16777216 % 256) as byte] + ToLe(id / 16777216 / 256, 0);
  }

  // ----------------------------------------------------------------------
  // What has happened in a run
  // ----------------------------------------------------------------------

  /** A connect took a slot, a slot was freed, a packet was chosen for execution, a
      report went to the bus. */
  datatype Happening =
    | Joined(slot: nat, addr: Addr)
    | Freed(slot: nat)
    | Chosen(slot: nat, addr: Addr, sequence: nat, payload: seq<byte>)
    | Reported(bytes: seq<byte>)

  function Happened(s: State, e: Event): seq<Happening>
    requires Shape(s) && PendingInRange(s)
  {
    var t := Step(s, e);
    match e
    case Packet(data, addr, _) =>
      if s.pending.Idle? && t.pending.Stamping? then [Joined(t.pending.slot, addr)]
      else if s.pending.Idle? && t.pending.Executing? then
        [Chosen(t.pending.slot, addr, Sequence(t.buf), t.buf[6..18])]
      else []
    case Execute => if s.pending.Executing? then [Reported(t.device)] else []
    case Leave => if s.pending.Leaving? then [Freed(s.pending.slot)] else []
    case Release(id) => if 1 <= id <= MAX_CLIENTS then [Freed(id - 1)] else []
    case Stamp(_) => []
    case List => []
  }

  datatype World = World(state: State, history: seq<Happening>)

  function Run(events: seq<Event>): (w: World)
    ensures Shape(w.state) && PendingInRange(w.state)
  {
    if events == [] then World(Initial(), [])
    else
      var w, e := Run(events[..|events| - 1]), events[|events| - 1];
      World(Step(w.state, e), w.history + Happened(w.state, e))
  }

  /** Whose connect holds a slot. */
  function Owner(h: seq<Happening>, i: nat): Option<Addr> {
    if h == [] then None
    else
      match h[|h| - 1]
      case Joined(slot, addr) => if slot == i then Some(addr) else Owner(h[..|h| - 1], i)
      case Freed(slot) => if slot == i then None else Owner(h[..|h| - 1], i)
      case _ => Owner(h[..|h| - 1], i)
  }

  /** The last sequence number that was chosen in the session of a slot, or zero. */
  function LastChosen(h: seq<Happening>, i: nat): nat {
    if h == [] then 0
    else
      match h[|h| - 1]
      case Joined(slot, _) => if slot == i then 0 else LastChosen(h[..|h| - 1], i)
      case Freed(slot) => if slot == i then 0 else LastChosen(h[..|h| - 1], i)
      case Chosen(slot, _, sequence, _) => if slot == i then sequence else LastChosen(h[..|h| - 1], i)
      case Reported(_) => LastChosen(h[..|h| - 1], i)
  }

  lemma HistorySnoc(h: seq<Happening>, x: Happening, i: nat)
    ensures Owner(h + [x], i) ==
            match x
            case Joined(slot, addr) => if slot == i then Some(addr) else Owner(h, i)
            case Freed(slot) => if slot == i then None else Owner(h, i)
            case _ => Owner(h, i)
    ensures LastChosen(h + [x], i) ==
            match x
            case Joined(slot, _) => if slot == i then 0 else LastChosen(h, i)
            case Freed(slot) => if slot == i then 0 else LastChosen(h, i)
            case Chosen(slot, _, sequence, _) => if slot == i then sequence else LastChosen(h, i)
            case Reported(_) => LastChosen(h, i)
  {
    assert (h + [x])[..|h|] == h;
  }

  /** Every chosen packet comes from the address that holds its slot, with a sequence
      number above those chosen before in the session. */
  predicate SafeHistory(h: seq<Happening>) {
    h != [] ==>
      && SafeHistory(h[..|h| - 1])
      && SafeNext(h[..|h| - 1], h[|h| - 1])
  }

  predicate SafeNext(h: seq<Happening>, x: Happening) {
    x.Chosen? ==> Owner(h, x.slot) == Some(x.addr) && x.sequence > LastChosen(h, x.slot)
  }

  lemma SafeSnoc(h: seq<Happening>, x: Happening)
    requires SafeHistory(h) && SafeNext(h, x)
    ensures SafeHistory(h + [x])
  {
    assert (h + [x])[..|h|] == h;
  }

  // ----------------------------------------------------------------------
  // The invariant of all interleavings
  // ----------------------------------------------------------------------

  /** Occupied slots have their number, free ones none and sequence zero. */
  predicate SlotTable(s: State) {
    forall i :: 0 <= i < |s.slots| ==>
      if s.slots[i].occupied then s.slots[i].number == Some(i + 1)
      else s.slots[i].number == None && s.slots[i].lastSequence == 0
  }

  /** A slot and what the history says about it. Only between the two lock sections of
      its connect may an occupied slot lack its address and its time. */
  predicate SlotAgrees(s: State, h: seq<Happening>, i: nat)
    requires i < |s.slots|
  {
    var slot := s.slots[i];
    && (slot.occupied <==> Owner(h, i).Some?)
    && (slot.occupied ==> slot.lastSequence == LastChosen(h, i))
    && (slot.occupied ==>
          if s.pending.Stamping? && s.pending.slot == i then Owner(h, i) == Some(s.pending.from)
          else slot.addr == Owner(h, i) && slot.time.Some?)
  }

  ghost predicate Inv(w: World) {
    && Shape(w.state) && PendingInRange(w.state)
    && SlotTable(w.state)
    && (forall i :: 0 <= i < MAX_CLIENTS ==> SlotAgrees(w.state, w.history, i))
    && SafeHistory(w.history)
  }

  /** A slot that a step does not touch and a happening that is not about it. */
  lemma AgreesStill(s: State, h: seq<Happening>, t: State, x: Happening, i: nat)
    requires i < |s.slots| && i < |t.slots| && s.slots[i] == t.slots[i] && SlotAgrees(s, h, i)
    requires s.pending.Stamping? && s.pending.slot == i ==> t.pending == s.pending
    requires t.pending.Stamping? && t.pending.slot == i ==> t.pending == s.pending
    requires x.Reported? || x.slot != i
    ensures SlotAgrees(t, h + [x], i)
  {
    HistorySnoc(h, x, i);
  }

  lemma ConnectKeeps(w: World, addr: Addr)
    requires Inv(w) && w.state.pending.Idle? && LowestFree(w.state.slots).Some?
    ensures Inv(World(OnConnect(w.state, addr), w.history + [Joined(LowestFree(w.state.slots).value, addr)]))
  {
    var i := LowestFree(w.state.slots).value;
    var x, t := Joined(i, addr), OnConnect(w.state, addr);
    HistorySnoc(w.history, x, i);
    SafeSnoc(w.history, x);
    forall k | 0 <= k < MAX_CLIENTS && k != i
      ensures SlotAgrees(t, w.history + [x], k)
    {
      AgreesStill(w.state, w.history, t, x, k);
    }
  }

  lemma ReleaseKeeps(w: World, id: nat)
    requires Inv(w) && 1 <= id <= MAX_CLIENTS
    ensures Inv(World(ReleaseSlot(w.state, id), w.history + [Freed(id - 1)]))
  {
    var x, t := Freed(id - 1), ReleaseSlot(w.state, id);
    HistorySnoc(w.history, x, id - 1);
    SafeSnoc(w.history, x);
    forall k | 0 <= k < MAX_CLIENTS && k != id - 1
      ensures SlotAgrees(t, w.history + [x], k)
    {
      AgreesStill(w.state, w.history, t, x, k);
    }
  }

  /** A change of times, or of the address that a connect has to store. */
  predicate QuietChange(s: State, t: State, i: nat)
    requires i < |s.slots| && i < |t.slots|
  {
    var a, b := s.slots[i], t.slots[i];
    && b == a.(addr := b.addr, time := b.time)
    && (a.occupied ==>
          if t.pending.Stamping? && t.pending.slot == i then t.pending == s.pending
          else b.time.Some? && b.addr == if s.pending.Stamping? && s.pending.slot == i then Some(s.pending.from) else a.addr)
  }

  lemma QuietKeeps(w: World, t: State)
    requires Inv(w) && Shape(t) && PendingInRange(t)
    requires forall i :: 0 <= i < MAX_CLIENTS ==> QuietChange(w.state, t, i)
    ensures Inv(World(t, w.history))
  {
    forall i | 0 <= i < MAX_CLIENTS
      ensures SlotAgrees(t, w.history, i)
    {
      assert QuietChange(w.state, t, i) && SlotAgrees(w.state, w.history, i);
    }
    forall i | 0 <= i < MAX_CLIENTS
      ensures t.slots[i].occupied == w.state.slots[i].occupied && t.slots[i].number == w.state.slots[i].number
      ensures t.slots[i].lastSequence == w.state.slots[i].lastSequence
    {
      assert QuietChange(w.state, t, i);
    }
    hide Owner, LastChosen, SafeHistory, SlotAgrees, QuietChange;
  }

  /** Every slot that a packet can touch has its address and its time. */
  lemma BetweenPackets(w: World, i: nat)
    requires Inv(w) && i < MAX_CLIENTS && w.state.slots[i].occupied
    requires !(w.state.pending.Stamping? && w.state.pending.slot == i)
    ensures w.state.slots[i].addr.Some? && w.state.slots[i].time.Some?
    ensures w.state.slots[i].addr == Owner(w.history, i)
    ensures w.state.slots[i].lastSequence == LastChosen(w.history, i)
  {
    assert SlotAgrees(w.state, w.history, i);
  }

  lemma ChosenKeeps(w: World, addr: Addr, now: int)
    requires Inv(w) && w.state.pending.Idle?
    requires OnData(w.state, addr, now).pending.Executing?
    ensures var t := OnData(w.state, addr, now);
            Inv(World(t, w.history + [Chosen(t.pending.slot, addr, Sequence(t.buf), t.buf[6..18])]))
  {
    var t := OnData(w.state, addr, now);
    var i := t.pending.slot;
    var x := Chosen(i, addr, Sequence(t.buf), t.buf[6..18]);
    BetweenPackets(w, i);
    HistorySnoc(w.history, x, i);
    SafeSnoc(w.history, x);
    hide FromLe, Owner, LastChosen, SafeHistory;
    forall k | 0 <= k < MAX_CLIENTS
      ensures SlotAgrees(t, w.history + [x], k)
    {
      assert SlotAgrees(w.state, w.history, k);
      if k != i {
        AgreesStill(w.state, w.history, t, x, k);
      }
    }
  }

  lemma PacketKeeps(w: World, data: seq<byte>, addr: Addr, now: int)
    requires Inv(w) && w.state.pending.Idle? && |data| <= BUF_LEN
    ensures var e := Packet(data, addr, now);
            Inv(World(Step(w.state, e), w.history + Happened(w.state, e)))
  {
    var v := World(w.state.(buf := Received(w.state.buf, data)), w.history);
    forall i | 0 <= i < MAX_CLIENTS && w.state.slots[i].occupied
      ensures w.state.slots[i].time.Some?
    {
      BetweenPackets(w, i);
    }
    QuietKeeps(w, v.state);
    var t := OnPacket(v.state, |data|, addr, now);
    assert w.history + [] == w.history;
    hide LowestFree, Inv, FromLe;
    if t.pending.Stamping? {
      ConnectKeeps(v, addr);
    } else if t.pending.Executing? {
      ChosenKeeps(v, addr, now);
    } else {
      QuietKeeps(w, t);
    }
  }

  lemma StepKeeps(w: World, e: Event)
    requires Inv(w)
    ensures Inv(World(Step(w.state, e), w.history + Happened(w.state, e)))
  {
    var s, t := w.state, Step(w.state, e);
    assert w.history + [] == w.history;
    forall i | 0 <= i < MAX_CLIENTS && s.slots[i].occupied && !(s.pending.Stamping? && s.pending.slot == i)
      ensures s.slots[i].time.Some?
    {
      BetweenPackets(w, i);
    }
    hide Inv, OnPacket, Report;
    match e
    case Packet(data, addr, now) =>
      if s.pending.Idle? && |data| <= BUF_LEN {
        PacketKeeps(w, data, addr, now);
      }
    case Stamp(_) =>
      QuietKeeps(w, t);
    case List =>
      QuietKeeps(w, t);
    case Execute =>
      if s.pending.Executing? {
        QuietKeeps(w, t);
        ReportKeeps(World(t, w.history), t.device);
      }
    case Leave =>
      if s.pending.Leaving? {
        ReleaseKeeps(w, s.pending.slot + 1);
        var v := World(ReleaseSlot(s, s.pending.slot + 1), w.history + [Freed(s.pending.slot)]);
        QuietKeeps(v, t);
      }
    case Release(id) =>
      if 1 <= id <= MAX_CLIENTS {
        ReleaseKeeps(w, id);
      } else {
        QuietKeeps(w, t);
      }
  }

  lemma ReportKeeps(w: World, report: seq<byte>)
    requires Inv(w)
    ensures Inv(World(w.state, w.history + [Reported(report)]))
  {
    var x := Reported(report);
    SafeSnoc(w.history, x);
    forall k | 0 <= k < MAX_CLIENTS
      ensures SlotAgrees(w.state, w.history + [x], k)
    {
      AgreesStill(w.state, w.history, w.state, x, k);
    }
  }

  lemma StartInv()
    ensures Inv(Run([]))
  {}

  lemma {:induction false} RunInv(events: seq<Event>)
    ensures Inv(Run(events))
  {
    hide Inv, Step, Happened;
    if events == [] {
      StartInv();
    } else {
      var w, e := Run(events[..|events| - 1]), events[|events| - 1];
      RunInv(events[..|events| - 1]);
      assert Run(events) == World(Step(w.state, e), w.history + Happened(w.state, e));
      StepKeeps(w, e);
    }
  }

  /** In every reachable state the slot table is in order, and while the receive loop
      waits for a packet every occupied slot has an address and a time. */
  lemma TableAlways(events: seq<Event>, i: nat)
    requires i < MAX_CLIENTS
    ensures var s := Run(events).state;
            && s.slots[i].number == (if s.slots[i].occupied then Some(i + 1) else None)
            && (!s.slots[i].occupied ==> s.slots[i].lastSequence == 0)
            && (s.pending.Idle? && s.slots[i].occupied ==> s.slots[i].addr.Some? && s.slots[i].time.Some?)
  {
    RunInv(events);
    var w := Run(events);
    if w.state.pending.Idle? && w.state.slots[i].occupied {
      BetweenPackets(w, i);
    }
    hide Run;
  }

  // ----------------------------------------------------------------------
  // Input safety
  // ----------------------------------------------------------------------

  /** `h[j..k]` belongs to one session of a slot, begun by a connect from `a`: nothing
      frees the slot or takes it anew, and the packets chosen for it all come from `a`,
      with ever larger sequence numbers above zero. */
  predicate Session(h: seq<Happening>, i: nat, a: Addr, j: nat, k: nat) {
    && j < k <= |h|
    && h[j] == Joined(i, a)
    && (forall m :: j < m < k ==> !(h[m].Joined? && h[m].slot == i) && h[m] != Freed(i))
    && (forall m :: j < m < k && h[m].Chosen? && h[m].slot == i ==> h[m].addr == a && h[m].sequence > 0)
    && (forall m, n :: j < m < n < k && h[m].Chosen? && h[m].slot == i && h[n].Chosen? && h[n].slot == i ==>
          h[m].sequence < h[n].sequence)
  }

  predicate NoneAbove(h: seq<Happening>, i: nat, j: nat, top: nat) {
    forall m :: j < m < |h| && h[m].Chosen? && h[m].slot == i ==> h[m].sequence <= top
  }

  lemma {:induction false} OwnerSession(h: seq<Happening>, i: nat) returns (j: nat)
    requires SafeHistory(h) && Owner(h, i).Some?
    ensures Session(h, i, Owner(h, i).value, j, |h|) && NoneAbove(h, i, j, LastChosen(h, i))
  {
    var n := |h| - 1;
    var front := h[..n];
    if h[n].Joined? && h[n].slot == i {
      j := n;
    } else {
      j := OwnerSession(front, i);
      assert forall m :: 0 <= m < n ==> front[m] == h[m];
    }
  }

  lemma {:induction false} SafeAt(h: seq<Happening>, k: nat)
    requires SafeHistory(h) && k < |h|
    ensures SafeHistory(h[..k]) && SafeNext(h[..k], h[k])
  {
    if k < |h| - 1 {
      SafeAt(h[..|h| - 1], k);
      assert h[..|h| - 1][..k] == h[..k];
    }
  }

  /** In every run, with packets, time-outs and commands in any order: a packet that is
      chosen for execution belongs to a session that was begun by a connect from its
      sender and has not ended, and its sequence number is above all before. */
  lemma InputSafety(events: seq<Event>, k: nat) returns (j: nat)
    requires k < |Run(events).history| && Run(events).history[k].Chosen?
    ensures var x := Run(events).history[k];
            Session(Run(events).history, x.slot, x.addr, j, k + 1)
  {
    RunInv(events);
    var h := Run(events).history;
    hide Run, Inv;
    assert SafeHistory(h) by { SafeOf(Run(events)); }
    SafeAt(h, k);
    j := OwnerSession(h[..k], h[k].slot);
    assert forall m :: 0 <= m < k ==> h[..k][m] == h[m];
    hide SafeHistory, Owner, LastChosen;
  }

  lemma SafeOf(w: World)
    requires Inv(w)
    ensures SafeHistory(w.history)
  {}

  /** And nothing else decides: in every reachable state a packet that arrives is chosen
      exactly if it is a data packet of at least 22 bytes, comes from the holder of its
      slot and has a sequence number above those chosen before in the session. */
  lemma ChosenIff(events: seq<Event>, data: seq<byte>, addr: Addr, now: int)
    requires Run(events).state.pending.Idle? && |data| <= BUF_LEN
    ensures var h := Run(events).history;
            Step(Run(events).state, Packet(data, addr, now)).pending.Executing?
            <==> |data| >= 22 && data[0] == 1
                 && 1 <= data[1] <= 4
                 && Owner(h, data[1] - 1) == Some(addr)
                 && FromLe(data[2..6]) > LastChosen(h, data[1] - 1)
  {
    hide Run, Owner, LastChosen, FromLe, LowestFree, SafeHistory;
    RunInv(events);
    var w := Run(events);
    if |data| >= 22 && 1 <= data[1] <= 4 {
      assert SlotAgrees(w.state, w.history, data[1] - 1);
    }
    hide Inv, SlotAgrees;
    DataChosen(w.state, data, addr, now);
  }

  lemma DataChosen(s: State, data: seq<byte>, addr: Addr, now: int)
    requires Shape(s) && s.pending.Idle? && |data| <= BUF_LEN
    ensures Step(s, Packet(data, addr, now)).pending.Executing?
            <==> |data| >= 22 && data[0] == 1
                 && 1 <= data[1] <= 4
                 && Holds(s.slots[data[1] - 1], addr)
                 && FromLe(data[2..6]) > s.slots[data[1] - 1].lastSequence
  {
    hide FromLe, LowestFree;
    if |data| >= 22 {
      assert Received(s.buf, data)[2..6] == data[2..6];
    }
  }

  /** All that a packet can do. The bytes behind its end are those of earlier packets, so
      a packet of one byte names the slot that one of them named. A connect takes the
      lowest free slot; the others act only for the holder of the slot that they name:
      data and heartbeats store the time, a disconnect releases; anything else is ignored. */
  lemma PacketEffect(s: State, data: seq<byte>, addr: Addr, now: int, k: nat)
    requires Shape(s) && s.pending.Idle? && |data| <= 1024 && k < MAX_CLIENTS
    ensures var t := Step(s, Packet(data, addr, now));
            var kind: int := if data == [] then 3 else data[0];
            var number: int := if |data| >= 2 then data[1] else s.buf[1];
            var held := number == k + 1 && Holds(s.slots[k], addr);
            var heard := held && (kind == 4 || (kind == 1 && |data| >= 22));
            var taken := kind == 0 && LowestFree(s.slots) == Some(k);
            && (t.pending == Stamping(k, addr) <==> taken)
            && (t.pending == Executing(k) <==> heard && kind == 1 && FromLe(data[2..6]) > s.slots[k].lastSequence)
            && (t.pending == Leaving(k) <==> held && kind == 2)
            && t.slots[k] == (if taken then s.slots[k].(occupied := true, number := Some(k + 1), lastSequence := 0)
                              else if t.pending == Executing(k)
                              then s.slots[k].(time := Some(now), lastSequence := FromLe(data[2..6]))
                              else if heard then s.slots[k].(time := Some(now))
                              else s.slots[k])
            && t.clients == s.clients && t.device == s.device && t.buf == data + s.buf[|data|..]
  {
    hide FromLe, LowestFree;
    var buf := Received(s.buf, data);
    if data != [] {
      assert buf[0] == data[0] && buf[1] == if |data| >= 2 then data[1] else s.buf[1];
    }
    if |data| >= 22 {
      assert buf[2..6] == data[2..6];
    }
  }

  // ----------------------------------------------------------------------
  // Reports
  // ----------------------------------------------------------------------

  /** Two bytes as a number, without a sign and in two's complement. */
  function Unsigned(low: int, high: int): int {
    low + 0x100 * high
  }

  function Signed(low: int, high: int): int {
    low + 0x100 * (if high < 0x80 then high else high - 0x100)
  }

  /** Where the fields of a gamepad lie in a packet. */
  lemma GamepadFields(buf: seq<byte>)
    requires |buf| == BUF_LEN
    ensures FromLe(buf[6..8]) == Unsigned(buf[6], buf[7])
    ensures ParseGamepad(buf)
            == Gamepad(FromLe(buf[6..8]), buf[8], buf[9], Signed(buf[10], buf[11]), Signed(buf[12], buf[13]),
                       Signed(buf[14], buf[15]), Signed(buf[16], buf[17]))
  {
    TwoBytes(buf[6..8]);
    TwoBytes(buf[10..12]);
    TwoBytes(buf[12..14]);
    TwoBytes(buf[14..16]);
    TwoBytes(buf[16..18]);
    hide FromLe;
  }

  lemma TwoBytes(s: seq<byte>)
    requires |s| == 2
    ensures FromLe(s) == Unsigned(s[0], s[1])
  {
    assert s == [s[0]] + [s[1]] && [s[1]] == [s[1]] + [];
    FromLeCons(s[0], [s[1]]);
    FromLeCons(s[1], []);
  }

  /** What the bus is to get for the state that a packet carries. */
  function ReportFor(slot: nat, payload: seq<byte>): seq<byte> {
    [0x1C, 0, 0, 0] + ToLe(slot + 1, 4) + [0, 0x14] + payload + [0, 0, 0, 0, 0, 0]
  }

  function ReportsOf(h: seq<Happening>): seq<seq<byte>> {
    if h == [] then []
    else ReportsOf(h[..|h| - 1]) + (if h[|h| - 1].Reported? then [h[|h| - 1].bytes] else [])
  }

  function ReportsDue(h: seq<Happening>): seq<seq<byte>> {
    if h == [] then []
    else
      var x := h[|h| - 1];
      ReportsDue(h[..|h| - 1]) + (if x.Chosen? then [ReportFor(x.slot, x.payload)] else [])
  }

  lemma ReportsSnoc(h: seq<Happening>, x: Happening)
    ensures ReportsOf(h + [x]) == ReportsOf(h) + (if x.Reported? then [x.bytes] else [])
    ensures ReportsDue(h + [x]) == ReportsDue(h) + (if x.Chosen? then [ReportFor(x.slot, x.payload)] else [])
  {
    assert (h + [x])[..|h|] == h;
  }

  lemma Int16RoundTrip(s: seq<byte>)
    requires |s| == 2
    ensures Int16Bytes(Int16(s)) == s
  {
    FromLeBound(s);
    assert Pow256(2) == 0x1_0000 by { assert Pow256(1) == 256; }
    ToFromLe(s);
    assert Int16(s) % 0x1_0000 == FromLe(s);
  }

  /** Taking a packet apart into a structure and the structure into bytes gives the
      bytes of the packet. */
  lemma GamepadRoundTrip(buf: seq<byte>)
    requires |buf| == BUF_LEN
    ensures GamepadBytes(ParseGamepad(buf)) == buf[6..18]
  {
    ToFromLe(buf[6..8]);
    Int16RoundTrip(buf[10..12]);
    Int16RoundTrip(buf[12..14]);
    Int16RoundTrip(buf[14..16]);
    Int16RoundTrip(buf[16..18]);
    hide FromLe, ToLe, Int16, Int16Bytes;
    assert buf[6..18] == buf[6..8] + [buf[8], buf[9]] + buf[10..12] + buf[12..14] + buf[14..16] + buf[16..18];
  }

  /** The bytes of the device buffer that no report changes. */
  predicate DeviceReady(device: seq<byte>)
    requires |device| == DEVICE_LEN
  {
    device[..4] == [0x1C, 0, 0, 0] && device[8..10] == [0, 0x14] && device[22..] == [0, 0, 0, 0, 0, 0]
  }

  lemma ReportRight(s: State, slot: nat)
    requires Shape(s) && DeviceReady(s.device)
    ensures Report(s, slot) == ReportFor(slot, s.buf[6..18]) && DeviceReady(Report(s, slot))
  {
    GamepadRoundTrip(s.buf);
    hide GamepadBytes, ParseGamepad, ToLe;
  }

  predicate ReportsInv(w: World) {
    && Shape(w.state) && DeviceReady(w.state.device)
    && ReportsDue(w.history) == ReportsOf(w.history)
                                + if w.state.pending.Executing?
                                  then [ReportFor(w.state.pending.slot, w.state.buf[6..18])] else []
  }

  predicate AboutReports(x: Happening) {
    x.Chosen? || x.Reported?
  }

  lemma QuietReports(w: World, t: State, more: seq<Happening>)
    requires ReportsInv(w) && |more| <= 1 && (more != [] ==> !AboutReports(more[0]))
    requires Shape(t) && t.device == w.state.device
    requires t.pending.Executing? <==> w.state.pending.Executing?
    requires t.pending.Executing? ==> t.pending == w.state.pending && t.buf == w.state.buf
    ensures ReportsInv(World(t, w.history + more))
  {
    hide ReportFor, ReportsOf, ReportsDue, DeviceReady;
    if more == [] {
      assert w.history + more == w.history;
    } else {
      assert more == [more[0]];
      ReportsSnoc(w.history, more[0]);
    }
  }

  lemma ChosenReports(w: World, t: State, addr: Addr, sequence: nat)
    requires ReportsInv(w) && !w.state.pending.Executing? && t.pending.Executing?
    requires Shape(t) && t.device == w.state.device
    ensures ReportsInv(World(t, w.history + [Chosen(t.pending.slot, addr, sequence, t.buf[6..18])]))
  {
    hide ReportFor, ReportsOf, ReportsDue, DeviceReady;
    ReportsSnoc(w.history, Chosen(t.pending.slot, addr, sequence, t.buf[6..18]));
  }

  lemma ExecutedReports(w: World, t: State)
    requires ReportsInv(w) && w.state.pending.Executing?
    requires t == w.state.(device := Report(w.state, w.state.pending.slot), pending := Idle)
    ensures ReportsInv(World(t, w.history + [Reported(t.device)]))
  {
    ReportRight(w.state, w.state.pending.slot);
    ReportsSnoc(w.history, Reported(t.device));
    hide Report, ReportFor, ReportsOf, ReportsDue, DeviceReady;
  }

  lemma PacketReports(w: World, data: seq<byte>, addr: Addr, now: int)
    requires PendingInRange(w.state) && ReportsInv(w)
    ensures var e := Packet(data, addr, now);
            ReportsInv(World(Step(w.state, e), w.history + Happened(w.state, e)))
  {
    hide LowestFree, FromLe, ReportFor, ReportsOf, ReportsDue, DeviceReady;
    var e := Packet(data, addr, now);
    var t := Step(w.state, e);
    assert t.device == w.state.device;
    hide ReportsInv;
    if w.state.pending.Idle? && t.pending.Executing? {
      assert Happened(w.state, e) == [Chosen(t.pending.slot, addr, Sequence(t.buf), t.buf[6..18])];
      ChosenReports(w, t, addr, Sequence(t.buf));
    } else {
      QuietReports(w, t, Happened(w.state, e));
    }
  }

  lemma ReportsKeep(w: World, e: Event)
    requires PendingInRange(w.state) && ReportsInv(w)
    ensures ReportsInv(World(Step(w.state, e), w.history + Happened(w.state, e)))
  {
    hide OnPacket, Without, Report, ReportFor, ReportsOf, ReportsDue, DeviceReady;
    match e
    case Packet(data, addr, now) => PacketReports(w, data, addr, now);
    case Stamp(_) => QuietReports(w, Step(w.state, e), []);
    case List => QuietReports(w, Step(w.state, e), []);
    case Leave => QuietReports(w, Step(w.state, e), Happened(w.state, e));
    case Release(_) => QuietReports(w, Step(w.state, e), Happened(w.state, e));
    case Execute =>
      if w.state.pending.Executing? {
        ExecutedReports(w, Step(w.state, e));
      } else {
        QuietReports(w, Step(w.state, e), []);
      }
  }

  lemma NoReports()
    ensures ReportsInv(Run([]))
  {}

  /** In every run the bus has got exactly the chosen packets, each once and in order,
      with the number of its slot; only the one just chosen may still be due. */
  lemma {:induction false} ReportsFollow(events: seq<Event>)
    ensures ReportsInv(Run(events))
  {
    hide ReportsInv, Step, Happened;
    if events == [] {
      NoReports();
    } else {
      var w, e := Run(events[..|events| - 1]), events[|events| - 1];
      ReportsFollow(events[..|events| - 1]);
      assert Run(events) == World(Step(w.state, e), w.history + Happened(w.state, e));
      ReportsKeep(w, e);
    }
  }

  // ----------------------------------------------------------------------
  // Time-outs and the end
  // ----------------------------------------------------------------------

  lemma {:induction false} ReleaseAllSlots(s: State, now: int, n: nat)
    requires n <= |s.slots|
    ensures var t := ReleaseAll(s, SilentSlots(s.slots, now, n));
            |t.slots| == |s.slots| && forall i :: 0 <= i < |s.slots| ==>
              t.slots[i] == if i < n && Silent(s.slots[i], now) then FREE else s.slots[i]
  {
    hide Silent, Without;
    if n == 0 {
      assert SilentSlots(s.slots, now, 0) == [];
    } else {
      ReleaseAllSlots(s, now, n - 1);
      var silent := SilentSlots(s.slots, now, n - 1);
      if Silent(s.slots[n - 1], now) {
        assert (silent + [n - 1])[..|silent|] == silent;
      } else {
        assert silent + [] == silent;
      }
    }
  }

  /** More than 3000 whole milliseconds, in nanoseconds. */
  lemma SilentIff(slot: Slot, now: int)
    ensures Silent(slot, now) <==> slot.occupied && slot.time.Some? && now - slot.time.value >= 3_001_000_000
  {}

  /** After a sweep that nothing interrupts, exactly those slots are occupied that were and
      have no time or one less than 3001 ms ago; they are what they were, and all that the
      sweep has released are blank. */
  lemma SweepFrees(s: State, now: int, i: nat)
    requires i < |s.slots|
    ensures var t := ReleaseAll(s, SilentSlots(s.slots, now, |s.slots|));
            && |t.slots| == |s.slots|
            && (t.slots[i].occupied
                <==> s.slots[i].occupied && (s.slots[i].time.Some? ==> now - s.slots[i].time.value < 3_001_000_000))
            && (t.slots[i] == s.slots[i] || (s.slots[i].occupied && t.slots[i] == Slot(false, None, 0, None, None)))
  {
    ReleaseAllSlots(s, now, |s.slots|);
    SilentIff(s.slots[i], now);
  }

  /** A heartbeat or data packet from the holder of a slot keeps it for a sweep that comes
      less than 3001 ms later and for no other, and touches no other slot. */
  lemma HeardIsKept(s: State, data: seq<byte>, addr: Addr, heard: int, now: int)
    requires Shape(s) && s.pending.Idle? && 2 <= |data| <= BUF_LEN
    requires data[0] == 4 || (data[0] == 1 && |data| >= 22)
    requires 1 <= data[1] <= 4 && Holds(s.slots[data[1] - 1], addr)
    ensures var i := data[1] - 1;
            var t := Step(s, Packet(data, addr, heard));
            && (ReleaseAll(t, SilentSlots(t.slots, now, 4)).slots[i].occupied <==> now - heard < 3_001_000_000)
            && Holds(t.slots[i], addr)
            && forall k :: 0 <= k < MAX_CLIENTS && k != i ==> t.slots[k] == s.slots[k]
  {
    hide FromLe, LowestFree;
    assert Received(s.buf, data)[0] == data[0] && Received(s.buf, data)[1] == data[1];
    var t := Step(s, Packet(data, addr, heard));
    assert t.slots[data[1] - 1].time == Some(heard);
    SweepFrees(t, now, data[1] - 1);
    hide ReleaseAll, SilentSlots;
  }

  // ----------------------------------------------------------------------
  // The list of connected clients
  // ----------------------------------------------------------------------

  function Entries(clients: seq<Client>, number: nat): nat {
    if clients == [] then 0
    else Entries(clients[..|clients| - 1], number) + (if clients[|clients| - 1].slot == number then 1 else 0)
  }

  predicate Occupied(slots: seq<Slot>, number: nat) {
    1 <= number <= |slots| && slots[number - 1].occupied
  }

  /** The number of a slot whose connect has not come to its listing, or zero. */
  function Unlisted(s: State): nat {
    if s.pending.Stamping? || s.pending.Listing? then s.pending.slot + 1 else 0
  }

  /** The list has one entry for each occupied slot, but for one that is still to be
      listed, and no other entry. */
  ghost predicate ListTracks(s: State) {
    forall number: nat ::
      Entries(s.clients, number) == if Occupied(s.slots, number) && number != Unlisted(s) then 1 else 0
  }

  lemma {:induction false} EntriesWithout(clients: seq<Client>, i: nat, number: nat)
    requires i < |clients|
    ensures Entries(clients, number)
            == Entries(Without(clients, i), number) + if clients[i].slot == number then 1 else 0
  {
    var n := |clients| - 1;
    var rest := Without(clients, i);
    if i == n {
      assert rest == clients[..n];
    } else {
      EntriesWithout(clients[..n], i, number);
      assert rest[..n - 1] == Without(clients[..n], i);
      assert rest[n - 1] == clients[n];
    }
  }

  /** The release of a listed slot finds its entry at the place that has the slot's
      index; the release of anything else finds no entry there. */
  predicate RightRelease(s: State, id: nat) {
    if Occupied(s.slots, id) && id != Unlisted(s) then id - 1 < |s.clients| && s.clients[id - 1].slot == id
    else id == 0 || id - 1 >= |s.clients|
  }

  /** As far as slots go that is exactly what keeps the list right. */
  lemma ReleaseTracksIff(s: State, id: nat)
    requires ListTracks(s)
    ensures ListTracks(ReleaseSlot(s, id)) <==> RightRelease(s, id)
  {
    hide Entries, Without;
    var t := ReleaseSlot(s, id);
    if id == 0 || id - 1 >= |s.clients| {
      SameList(s.clients, id);
      assert t.clients == s.clients;
      assert Occupied(s.slots, id) && id != Unlisted(s) ==> Entries(t.clients, id) == 1 && !Occupied(t.slots, id);
      assert forall n: nat :: n != id ==> Occupied(t.slots, n) == Occupied(s.slots, n);
    } else {
      var c := s.clients[id - 1].slot;
      EntriesWithout(s.clients, id - 1, c);
      EntriesWithout(s.clients, id - 1, id);
      assert Entries(s.clients, c) == if Occupied(s.slots, c) && c != Unlisted(s) then 1 else 0;
      if RightRelease(s, id) {
        forall n: nat
          ensures Entries(t.clients, n) == if Occupied(t.slots, n) && n != Unlisted(t) then 1 else 0
        {
          EntriesWithout(s.clients, id - 1, n);
          assert n != id ==> Occupied(t.slots, n) == Occupied(s.slots, n);
        }
      } else {
        assert Entries(t.clients, c) == 0;
        assert c != id ==> Occupied(t.slots, c) == Occupied(s.slots, c);
      }
    }
  }

  lemma SameList(clients: seq<Client>, id: nat)
    requires id == 0 || id - 1 >= |clients|
    ensures id != 0 ==> Without(clients, id - 1) == clients
  {}

  /** What keeps the list right in each step: right releases, and that a slot is still
      held when its connect comes to list it. */
  predicate StepRight(s: State, e: Event) {
    match e
    case Release(id) => RightRelease(s, id)
    case Leave => s.pending.Leaving? ==> RightRelease(s, s.pending.slot + 1)
    case List => s.pending.Listing? ==> Occupied(s.slots, s.pending.slot + 1)
    case _ => true
  }

  lemma {:induction false} EntriesInAll(clients: seq<Client>)
    requires forall k :: 0 <= k < |clients| ==> 1 <= clients[k].slot <= 4
    ensures |clients| == Entries(clients, 1) + Entries(clients, 2) + Entries(clients, 3) + Entries(clients, 4)
  {
    if clients != [] {
      EntriesInAll(clients[..|clients| - 1]);
    }
  }

  lemma {:induction false} EntryCounts(clients: seq<Client>, k: nat)
    requires k < |clients|
    ensures Entries(clients, clients[k].slot) > 0
  {
    if k < |clients| - 1 {
      EntryCounts(clients[..|clients| - 1], k);
    }
  }

  /** While a slot is still to be listed there is room for it. */
  lemma RoomToList(s: State)
    requires ListTracks(s) && |s.slots| == MAX_CLIENTS && s.pending.Listing? && s.pending.slot < MAX_CLIENTS
    ensures |s.clients| < 4
  {
    hide Entries;
    forall k | 0 <= k < |s.clients|
      ensures 1 <= s.clients[k].slot <= 4
    {
      EntryCounts(s.clients, k);
    }
    EntriesInAll(s.clients);
    assert Entries(s.clients, s.pending.slot + 1) == 0;
    assert forall n: nat :: Entries(s.clients, n) <= 1;
  }

  /** There is never a fifth entry, not even a stale one. */
  lemma {:induction false} ListBounded(events: seq<Event>)
    ensures |Run(events).state.clients| <= 4
  {
    if events != [] {
      var s, e := Run(events[..|events| - 1]).state, events[|events| - 1];
      ListBounded(events[..|events| - 1]);
      RunLast(events);
      hide Run;
      ListedStep(s, e);
    }
  }

  /** The list changes by an entry at its end or by one taken out at an index. */
  lemma ListedStep(s: State, e: Event)
    requires Shape(s) && PendingInRange(s)
    ensures var t := Step(s, e);
            var freed := if e.Release? then e.id else if e.Leave? && s.pending.Leaving? then s.pending.slot + 1 else 0;
            t.clients
            == (if e.List? && s.pending.Listing? && |s.clients| < 4
                then s.clients + [Client(s.pending.from.ip, s.pending.slot + 1)]
                else if 0 < freed <= |s.clients| then s.clients[..freed - 1] + s.clients[freed..]
                else s.clients)
  {
    hide FromLe, LowestFree, Report;
  }

  lemma EntriesSnoc(clients: seq<Client>, c: Client, number: nat)
    ensures Entries(clients + [c], number) == Entries(clients, number) + if c.slot == number then 1 else 0
  {
    assert (clients + [c])[..|clients|] == clients;
  }

  /** The entry has the address of the client that holds the slot. */
  predicate NamesHolder(slots: seq<Slot>, c: Client) {
    Occupied(slots, c.slot) && slots[c.slot - 1].addr.Some? && slots[c.slot - 1].addr.value.ip == c.ip
  }

  /** The list is right: its entries are those of the held slots, each with the address of
      the slot's holder. */
  ghost predicate ListRight(s: State) {
    ListTracks(s) && forall k :: 0 <= k < |s.clients| ==> NamesHolder(s.slots, s.clients[k])
  }

  /** For every release, of an occupied slot or a free one: it keeps the list right exactly
      in that case. */
  lemma ReleaseRightIff(s: State, id: nat)
    requires ListRight(s)
    ensures ListRight(ReleaseSlot(s, id)) <==> RightRelease(s, id)
  {
    ReleaseTracksIff(s, id);
    var t := ReleaseSlot(s, id);
    if ListTracks(t) {
      forall k | 0 <= k < |t.clients|
        ensures NamesHolder(t.slots, t.clients[k])
      {
        var c := t.clients[k];
        EntryCounts(t.clients, k);
        assert Occupied(t.slots, c.slot);
        StillThere(s, id, k);
      }
    }
    hide ListTracks, RightRelease, Entries;
  }

  lemma StillThere(s: State, id: nat, k: nat)
    requires k < |ReleaseSlot(s, id).clients|
    ensures ReleaseSlot(s, id).clients[k] in s.clients
    ensures forall c :: c in s.clients ==> exists l :: 0 <= l < |s.clients| && s.clients[l] == c
  {}

  /** Nothing has changed for the list: neither itself nor the slots that it names. */
  predicate SameListed(s: State, t: State) {
    && t.clients == s.clients && |t.slots| == |s.slots|
    && forall i :: 0 <= i < |s.slots| ==> SameListedAt(s, t, i)
  }

  predicate SameListedAt(s: State, t: State, i: nat)
    requires i < |s.slots| == |t.slots|
  {
    && (t.slots[i].occupied && i + 1 != Unlisted(t) <==> s.slots[i].occupied && i + 1 != Unlisted(s))
    && (s.slots[i].occupied && i + 1 != Unlisted(s) ==> t.slots[i].addr == s.slots[i].addr)
  }

  lemma SameListedTracks(s: State, t: State)
    requires SameListed(s, t)
    ensures ListTracks(t) <==> ListTracks(s)
  {
    forall n: nat
      ensures (Occupied(t.slots, n) && n != Unlisted(t)) == (Occupied(s.slots, n) && n != Unlisted(s))
    {
      assert 1 <= n <= |s.slots| ==> SameListedAt(s, t, n - 1);
    }
    hide Entries, SameListed, Occupied, Unlisted;
  }

  lemma SameListedRight(s: State, t: State)
    requires SameListed(s, t) && ListRight(s)
    ensures ListRight(t)
  {
    SameListedTracks(s, t);
    forall k | 0 <= k < |t.clients|
      ensures NamesHolder(t.slots, t.clients[k])
    {
      EntryCounts(s.clients, k);
      assert NamesHolder(s.slots, s.clients[k]);
      assert SameListedAt(s, t, s.clients[k].slot - 1);
    }
    hide Entries;
  }

  lemma ConnectSameListed(s: State, addr: Addr)
    requires Shape(s) && s.pending.Idle?
    ensures SameListed(s, OnConnect(s, addr))
  {}

  lemma DataSameListed(s: State, addr: Addr, now: int)
    requires Shape(s) && s.pending.Idle?
    ensures SameListed(s, OnData(s, addr, now))
  {
    hide FromLe;
  }

  lemma HeartbeatSameListed(s: State, addr: Addr, now: int)
    requires Shape(s) && s.pending.Idle?
    ensures SameListed(s, OnHeartbeat(s, addr, now)) && SameListed(s, OnDisconnect(s, addr)) && SameListed(s, s)
  {}

  lemma PacketSameListed(s: State, data: seq<byte>, addr: Addr, now: int)
    requires Shape(s) && PendingInRange(s)
    ensures SameListed(s, Step(s, Packet(data, addr, now)))
  {
    if s.pending.Idle? && |data| <= BUF_LEN {
      var r := s.(buf := Received(s.buf, data));
      ConnectSameListed(r, addr);
      DataSameListed(r, addr, now);
      HeartbeatSameListed(r, addr, now);
      hide OnConnect, OnData, OnHeartbeat, OnDisconnect, SameListedAt;
      SameListedFrom(s, r, OnPacket(r, |data|, addr, now));
    }
  }

  lemma SameListedFrom(s: State, r: State, t: State)
    requires r == s.(buf := r.buf) && SameListed(r, t)
    ensures SameListed(s, t)
  {
    forall i | 0 <= i < |s.slots|
      ensures SameListedAt(s, t, i)
    {
      assert SameListedAt(r, t, i);
    }
  }

  lemma OtherSameListed(s: State, e: Event)
    requires Shape(s) && PendingInRange(s) && (e.Stamp? || e.Execute?)
    ensures SameListed(s, Step(s, e))
  {
    hide Report;
  }

  /** What is to be listed is the address that the slot has. */
  predicate ListingHolds(s: State) {
    s.pending.Listing? && s.pending.slot < |s.slots| && s.slots[s.pending.slot].occupied ==>
      s.slots[s.pending.slot].addr == Some(s.pending.from)
  }

  lemma ListingStep(s: State, e: Event)
    requires Shape(s) && PendingInRange(s) && ListingHolds(s)
    ensures ListingHolds(Step(s, e))
  {
    hide FromLe, Report, LowestFree, Without;
  }

  lemma ListStepIff(s: State)
    requires ListRight(s) && ListingHolds(s) && Shape(s) && PendingInRange(s) && s.pending.Listing?
    ensures ListRight(Step(s, List)) <==> Occupied(s.slots, s.pending.slot + 1)
  {
    hide Entries;
    RoomToList(s);
    var t, u := Step(s, List), s.pending.slot + 1;
    var c := Client(s.pending.from.ip, u);
    assert t.clients == s.clients + [c] && t.slots == s.slots;
    forall n: nat
      ensures Entries(t.clients, n) == Entries(s.clients, n) + if n == u then 1 else 0
    {
      EntriesSnoc(s.clients, c, n);
    }
    assert Entries(t.clients, u) == 1;
    hide Step;
  }

  /** Each step keeps the list right exactly if it is right in this sense. */
  lemma StepRightIff(s: State, e: Event)
    requires ListRight(s) && ListingHolds(s) && Shape(s) && PendingInRange(s)
    ensures ListRight(Step(s, e)) <==> StepRight(s, e)
  {
    hide ListRight, ListingHolds, RightRelease, SameListed, OnPacket, Report, Without;
    match e
    case Packet(data, addr, now) =>
      PacketSameListed(s, data, addr, now);
      SameListedRight(s, Step(s, e));
    case Stamp(_) =>
      OtherSameListed(s, e);
      SameListedRight(s, Step(s, e));
    case Execute =>
      OtherSameListed(s, e);
      SameListedRight(s, Step(s, e));
    case Release(id) => ReleaseRightIff(s, id);
    case List =>
      if s.pending.Listing? {
        ListStepIff(s);
      }
    case Leave =>
      if s.pending.Leaving? {
        ReleaseRightIff(s, s.pending.slot + 1);
        LeftSameListed(ReleaseSlot(s, s.pending.slot + 1));
      }
  }

  lemma LeftSameListed(s: State)
    requires s.pending.Leaving?
    ensures ListRight(s.(pending := Idle)) <==> ListRight(s)
  {
    var t := s.(pending := Idle);
    assert forall i :: 0 <= i < |s.slots| ==> SameListedAt(s, t, i) && SameListedAt(t, s, i);
    if ListRight(s) {
      SameListedRight(s, t);
    }
    if ListRight(t) {
      SameListedRight(t, s);
    }
    hide ListRight;
  }

  /** The list is right, and has been after every step before. */
  ghost predicate AlwaysRight(events: seq<Event>) {
    ListRight(Run(events).state) && (events != [] ==> AlwaysRight(events[..|events| - 1]))
  }

  predicate AllStepsRight(events: seq<Event>) {
    events != [] ==>
      var front := events[..|events| - 1];
      AllStepsRight(front) && StepRight(Run(front).state, events[|events| - 1])
  }

  lemma {:induction false} ListingAlways(events: seq<Event>)
    ensures ListingHolds(Run(events).state)
  {
    hide Run, ListingHolds;
    if events == [] {
      NothingListed();
    } else {
      ListingAlways(events[..|events| - 1]);
      RunLast(events);
      ListingStep(Run(events[..|events| - 1]).state, events[|events| - 1]);
    }
  }

  /** Over every run: the list has been right all the time exactly if every step was. */
  lemma {:induction false} RunRightIff(events: seq<Event>)
    ensures AlwaysRight(events) <==> AllStepsRight(events)
  {
    hide ListRight, StepRight, Run, ListingHolds;
    if events == [] {
      NothingListed();
    } else {
      var front, e := events[..|events| - 1], events[|events| - 1];
      RunRightIff(front);
      RunLast(events);
      ListingAlways(front);
      if ListRight(Run(front).state) {
        StepRightIff(Run(front).state, e);
      }
    }
  }

  lemma NothingListed()
    ensures ListRight(Run([]).state) && ListingHolds(Run([]).state)
  {}

  lemma RunLast(events: seq<Event>)
    requires events != []
    ensures Run(events).state == Step(Run(events[..|events| - 1]).state, events[|events| - 1])
  {
    hide Step, Happened;
  }

  lemma RunSnoc(events: seq<Event>, e: Event)
    ensures Run(events + [e]).state == Step(Run(events).state, e)
  {
    assert (events + [e])[..|events|] == events;
  }

  /** A whole connect, with nothing in between. */
  lemma ConnectRun(events: seq<Event>, a: Addr, now: int) returns (more: seq<Event>)
    requires var s := Run(events).state;
             s.pending.Idle? && LowestFree(s.slots).Some? && |s.clients| < 4
    ensures more == events + [Packet([0], a, now), Stamp(now), List]
    ensures var s, t := Run(events).state, Run(more).state;
            var i := LowestFree(s.slots).value;
            && t.pending.Idle?
            && t.slots == s.slots[i := Slot(true, Some(i + 1), 0, Some(a), Some(now))]
            && t.clients == s.clients + [Client(a.ip, i + 1)]
  {
    hide Run, LowestFree;
    RunSnoc(events, Packet([0], a, now));
    RunSnoc(events + [Packet([0], a, now)], Stamp(now));
    RunSnoc(events + [Packet([0], a, now)] + [Stamp(now)], List);
    more := events + [Packet([0], a, now), Stamp(now), List];
    assert more == events + [Packet([0], a, now)] + [Stamp(now)] + [List];
  }

  lemma FirstIsFree()
    ensures LowestFree(Initial().slots) == Some(0) && Initial().slots[0] == FREE
    ensures Run([]).state == Initial() && Initial().clients == [] && Initial().pending == Idle
  {}

  /** The first client to connect, when all slots are free. */
  lemma FirstConnect(events: seq<Event>, a: Addr, now: int) returns (more: seq<Event>)
    requires var s := Run(events).state;
             s.pending.Idle? && s.slots == Initial().slots && |s.clients| < 4
    ensures more == events + [Packet([0], a, now), Stamp(now), List]
    ensures var s, t := Run(events).state, Run(more).state;
            && t.pending.Idle? && t.clients == s.clients + [Client(a.ip, 1)]
            && t.slots == Initial().slots[0 := Slot(true, Some(1), 0, Some(a), Some(now))]
  {
    hide Run, LowestFree, Initial;
    FirstIsFree();
    more := ConnectRun(events, a, now);
  }

  function Held(number: nat, a: Addr, now: int): Slot {
    Slot(true, Some(number), 0, Some(a), Some(now))
  }

  lemma SecondIsFree(slot: Slot)
    requires slot.occupied
    ensures LowestFree(Initial().slots[0 := slot]) == Some(1)
  {}

  lemma TwoConnected(a: Addr, b: Addr, now: int) returns (more: seq<Event>)
    ensures more == [Packet([0], a, now), Stamp(now), List, Packet([0], b, now), Stamp(now), List]
    ensures var s := Run(more).state;
            && s.pending == Idle && s.clients == [Client(a.ip, 1), Client(b.ip, 2)]
            && s.slots == Initial().slots[0 := Held(1, a, now)][1 := Held(2, b, now)]
  {
    hide Run, LowestFree, Initial;
    FirstIsFree();
    var first := FirstConnect([], a, now);
    SecondIsFree(Held(1, a, now));
    more := ConnectRun(first, b, now);
    assert [] + [Client(a.ip, 1)] + [Client(b.ip, 2)] == [Client(a.ip, 1), Client(b.ip, 2)];
  }

  /** A run in which it goes wrong: two clients connect and both are released; every slot
      is free, yet the second client stays in the list. */
  lemma StaleEntry(a: Addr, b: Addr, now: int)
    ensures var events := [Packet([0], a, now), Stamp(now), List, Packet([0], b, now), Stamp(now), List,
                           Release(1), Release(2)];
            var s := Run(events).state;
            && (forall i :: 0 <= i < MAX_CLIENTS ==> !s.slots[i].occupied)
            && s.clients == [Client(b.ip, 2)]
  {
    hide Run;
    var e2 := TwoConnected(a, b, now);
    ReleasedRun(e2, 1);
    ReleasedRun(e2 + [Release(1)], 2);
    BothReleased(Run(e2).state, a, b, now);
    assert e2 + [Release(1)] + [Release(2)]
        == [Packet([0], a, now), Stamp(now), List, Packet([0], b, now), Stamp(now), List, Release(1), Release(2)];
  }

  lemma BothReleased(s: State, a: Addr, b: Addr, now: int)
    requires s.clients == [Client(a.ip, 1), Client(b.ip, 2)]
    requires s.slots == Initial().slots[0 := Held(1, a, now)][1 := Held(2, b, now)]
    ensures var t := ReleaseSlot(ReleaseSlot(s, 1), 2);
            t.slots == Initial().slots && t.clients == [Client(b.ip, 2)]
    ensures forall i :: 0 <= i < MAX_CLIENTS ==> !Initial().slots[i].occupied
  {
    assert ReleaseSlot(s, 1).clients == [Client(b.ip, 2)];
  }

  lemma ReleasedRun(events: seq<Event>, id: nat)
    ensures Run(events + [Release(id)]).state == ReleaseSlot(Run(events).state, id)
  {
    RunSnoc(events, Release(id));
  }

  // ----------------------------------------------------------------------
  // What the locks do not prevent
  // ----------------------------------------------------------------------

  function LeftAfter(s: State, e: Event, left: Option<(Addr, int)>, i: nat): Option<(Addr, int)>
    requires i < |s.slots|
  {
    if e.Stamp? && s.pending.Stamping? && s.pending.slot == i then
      if s.slots[i].occupied then None else Some((s.pending.from, e.now))
    else if e == Release(i + 1) || (e.Leave? && s.pending == Leaving(i)) then None
    else left
  }

  /** What the last stamp of a slot has left on it: address and time if the slot was free
      by then, and has not been released since. */
  function LeftOver(events: seq<Event>, i: nat): Option<(Addr, int)>
    requires i < MAX_CLIENTS
  {
    if events == [] then None
    else
      var front := events[..|events| - 1];
      LeftAfter(Run(front).state, events[|events| - 1], LeftOver(front, i), i)
  }

  predicate FreesInConnect(s: State, e: Event) {
    s.pending.Stamping? && e == Release(s.pending.slot + 1)
  }

  /** A slot was released between the two lock sections of its connect. */
  predicate ReleasedWhileStamping(events: seq<Event>) {
    events != [] &&
    var front := events[..|events| - 1];
    ReleasedWhileStamping(front) || FreesInConnect(Run(front).state, events[|events| - 1])
  }

  predicate LeftAgrees(s: State, left: Option<(Addr, int)>, i: nat)
    requires i < |s.slots|
  {
    var slot := s.slots[i];
    !slot.occupied || (s.pending.Stamping? && s.pending.slot == i) ==>
      match left
      case Some(p) => slot.addr == Some(p.0) && slot.time == Some(p.1)
      case None => slot.addr == None && slot.time == None
  }

  lemma LeftStep(s: State, e: Event, left: Option<(Addr, int)>, i: nat)
    requires Shape(s) && PendingInRange(s) && i < MAX_CLIENTS && LeftAgrees(s, left, i)
    ensures LeftAgrees(Step(s, e), LeftAfter(s, e, left, i), i)
  {
    hide FromLe, Report, LowestFree, Without;
  }

  lemma {:induction false} LeftInv(events: seq<Event>, i: nat)
    requires i < MAX_CLIENTS
    ensures LeftAgrees(Run(events).state, LeftOver(events, i), i)
  {
    hide LeftAgrees, Run, LeftAfter;
    if events == [] {
      NothingLeft(i);
    } else {
      var front := events[..|events| - 1];
      LeftInv(front, i);
      RunLast(events);
      LeftStep(Run(front).state, events[|events| - 1], LeftOver(front, i), i);
    }
  }

  lemma NothingLeft(i: nat)
    requires i < MAX_CLIENTS
    ensures LeftAgrees(Run([]).state, None, i)
    ensures !Run([]).state.pending.Stamping? && !Run([]).state.pending.Executing?
  {}

  /** In every reachable state a slot in the middle of its connect is silent to a sweep
      exactly if it is held and its last stamp, long enough ago, hit it when it was free. */
  lemma EvictedWhileConnectingIff(events: seq<Event>, i: nat, now: int)
    requires i < MAX_CLIENTS && Run(events).state.pending.Stamping? && Run(events).state.pending.slot == i
    ensures Silent(Run(events).state.slots[i], now)
            <==> && Run(events).state.slots[i].occupied
                 && LeftOver(events, i).Some? && now - LeftOver(events, i).value.1 >= 3_001_000_000
  {
    LeftInv(events, i);
    SilentIff(Run(events).state.slots[i], now);
    hide Run, LeftOver, Silent;
  }

  /** A slot in the middle of its connect that is free. */
  predicate FreeInConnect(s: State)
    requires Shape(s) && PendingInRange(s)
  {
    s.pending.Stamping? && !s.slots[s.pending.slot].occupied
  }

  lemma FreeInConnectStep(s: State, e: Event)
    requires Shape(s) && PendingInRange(s)
    ensures FreeInConnect(Step(s, e)) ==> FreeInConnect(s) || FreesInConnect(s, e)
  {
    hide FromLe, Report, LowestFree, Without;
  }

  lemma {:induction false} FreedInConnect(events: seq<Event>)
    ensures FreeInConnect(Run(events).state) ==> ReleasedWhileStamping(events)
  {
    hide Run, FreesInConnect;
    if events == [] {
      NothingLeft(0);
    } else {
      FreedInConnect(events[..|events| - 1]);
      RunLast(events);
      FreeInConnectStep(Run(events[..|events| - 1]).state, events[|events| - 1]);
    }
  }

  lemma {:induction false} LeftOnlyThen(events: seq<Event>, i: nat)
    requires i < MAX_CLIENTS
    ensures LeftOver(events, i).Some? ==> ReleasedWhileStamping(events)
  {
    hide Run, FreesInConnect;
    if events != [] {
      LeftOnlyThen(events[..|events| - 1], i);
      FreedInConnect(events[..|events| - 1]);
    }
  }

  /** Unless a slot has been released between the two lock sections of its connect, every
      free slot is as at the start and no slot in the middle of its connect is ever silent. */
  lemma NeverEvictedWhileConnecting(events: seq<Event>, i: nat, now: int)
    requires i < MAX_CLIENTS && !ReleasedWhileStamping(events)
    ensures var s := Run(events).state;
            && (!s.slots[i].occupied ==> s.slots[i] == FREE)
            && (s.pending.Stamping? && s.pending.slot == i ==> s.slots[i].time == None && !Silent(s.slots[i], now))
  {
    TableAlways(events, i);
    LeftInv(events, i);
    LeftOnlyThen(events, i);
    hide Run, LeftOver, ReleasedWhileStamping, Millis;
  }

  /** A run in which it happens: the next client to take the slot is silent to a sweep
      before its own time is stored. */
  lemma EvictedWhileConnecting(a: Addr, b: Addr, before: int, now: int)
    requires now - before >= 3_001_000_000
    ensures var events := [Packet([0], a, before), Release(1), Stamp(before), List, Packet([0], b, now)];
            var s := Run(events).state;
            s.pending == Stamping(0, b) && Silent(s.slots[0], now)
  {
    var e1 := [] + [Packet([0], a, before)];
    var e2 := e1 + [Release(1)];
    var e3 := e2 + [Stamp(before)];
    var e4 := e3 + [List];
    RunSnoc([], Packet([0], a, before));
    RunSnoc(e1, Release(1));
    RunSnoc(e2, Stamp(before));
    RunSnoc(e3, List);
    RunSnoc(e4, Packet([0], b, now));
    assert Run([]).state == Initial();
    hide Run, FromLe, Report;
    assert e4 + [Packet([0], b, now)] == [Packet([0], a, before), Release(1), Stamp(before), List, Packet([0], b, now)];
  }

  lemma {:induction false} SilentSlotsAre(slots: seq<Slot>, now: int, n: nat, i: nat)
    requires n <= |slots|
    ensures i in SilentSlots(slots, now, n) <==> i < n && Silent(slots[i], now)
  {
    if n != 0 {
      SilentSlotsAre(slots, now, n - 1, i);
    }
  }

  function RunFrom(s: State, events: seq<Event>): (t: State)
    requires Shape(s) && PendingInRange(s)
    ensures Shape(t) && PendingInRange(t)
  {
    if events == [] then s else Step(RunFrom(s, events[..|events| - 1]), events[|events| - 1])
  }

  lemma {:induction false} RunOn(events: seq<Event>, more: seq<Event>)
    ensures Run(events + more).state == RunFrom(Run(events).state, more)
  {
    hide Run, Step;
    if more == [] {
      assert events + more == events;
    } else {
      var n := |more| - 1;
      RunOn(events, more[..n]);
      assert (events + more[..n]) + [more[n]] == events + more;
      RunSnoc(events + more[..n], more[n]);
    }
  }

  /** The step is about a slot: a heartbeat or data packet of its holder, the stamp of its
      connect, or a release of it. */
  predicate Touches(s: State, e: Event, i: nat)
    requires Shape(s) && i < MAX_CLIENTS
  {
    match e
    case Packet(data, addr, _) =>
      && s.pending.Idle? && 1 <= |data| <= BUF_LEN
      && (data[0] == 4 || (data[0] == 1 && |data| >= 22))
      && (if |data| >= 2 then data[1] else s.buf[1]) == i + 1 && Holds(s.slots[i], addr)
    case Stamp(_) => s.pending.Stamping? && s.pending.slot == i
    case Leave => s.pending == Leaving(i)
    case Release(id) => id == i + 1
    case _ => false
  }

  predicate Touched(s: State, events: seq<Event>, i: nat)
    requires Shape(s) && PendingInRange(s) && i < MAX_CLIENTS
  {
    events != [] &&
    var front := events[..|events| - 1];
    Touched(s, front, i) || Touches(RunFrom(s, front), events[|events| - 1], i)
  }

  predicate NotBefore(e: Event, time: int) {
    (e.Packet? || e.Stamp?) ==> time <= e.now
  }

  /** Nothing on the slot is older than this. */
  predicate Recent(slot: Slot, time: int) {
    slot.time.Some? ==> time <= slot.time.value
  }

  lemma TouchPacket(s: State, data: seq<byte>, addr: Addr, now: int, i: nat)
    requires Shape(s) && PendingInRange(s) && i < MAX_CLIENTS
    ensures var e, t := Packet(data, addr, now), Step(s, Packet(data, addr, now));
            && (Touches(s, e, i) ==> t.slots[i].time == Some(now))
            && (!Touches(s, e, i) ==> t.slots[i].time == s.slots[i].time)
            && (!Touches(s, e, i) && s.slots[i].occupied ==> t.slots[i] == s.slots[i])
  {
    hide FromLe, LowestFree;
    if 1 <= |data| <= BUF_LEN {
      assert Received(s.buf, data)[0] == data[0];
      assert Received(s.buf, data)[1] == if |data| >= 2 then data[1] else s.buf[1];
    }
  }

  lemma TouchStep(s: State, e: Event, i: nat, time: int)
    requires Shape(s) && PendingInRange(s) && i < MAX_CLIENTS && NotBefore(e, time)
    ensures var t := Step(s, e);
            && (Touches(s, e, i) || Recent(s.slots[i], time) ==> Recent(t.slots[i], time))
            && (!Touches(s, e, i) && s.slots[i].occupied ==> t.slots[i] == s.slots[i])
  {
    hide OnPacket, Report, Without;
    if e.Packet? {
      TouchPacket(s, e.data, e.addr, e.now, i);
    }
  }

  lemma {:induction false} TouchRun(s: State, events: seq<Event>, i: nat, time: int)
    requires Shape(s) && PendingInRange(s) && i < MAX_CLIENTS && s.slots[i].occupied
    requires forall k :: 0 <= k < |events| ==> NotBefore(events[k], time)
    ensures if Touched(s, events, i) then Recent(RunFrom(s, events).slots[i], time)
            else RunFrom(s, events).slots[i] == s.slots[i]
  {
    hide Step, Touches, Recent, NotBefore;
    if events != [] {
      var n := |events| - 1;
      TouchRun(s, events[..n], i, time);
      TouchStep(RunFrom(s, events[..n]), events[n], i, time);
    }
  }

  /** Between the scan of a sweep and its releases the lock is free. Whatever comes then, a
      slot that the scan found is still silent at its release exactly if nothing has
      touched it; and it is released in any case. */
  lemma SweptIff(events: seq<Event>, between: seq<Event>, i: nat, scan: int)
    requires i < MAX_CLIENTS && Silent(Run(events).state.slots[i], scan)
    requires forall k :: 0 <= k < |between| ==> NotBefore(between[k], scan)
    ensures i in SilentSlots(Run(events).state.slots, scan, MAX_CLIENTS)
    ensures Silent(Run(events + between).state.slots[i], scan) <==> !Touched(Run(events).state, between, i)
    ensures Run(events + between + [Release(i + 1)]).state.slots[i] == FREE
  {
    hide Run, Touched, RunFrom, NotBefore, SilentSlots, LowestFree, FromLe, Report, Without;
    SilentSlotsAre(Run(events).state.slots, scan, MAX_CLIENTS, i);
    TouchRun(Run(events).state, between, i, scan);
    RunOn(events, between);
    RunSnoc(events + between, Release(i + 1));
  }

  lemma FirstReleased(s: State, slot: Slot)
    requires s.slots == Initial().slots[0 := slot]
    ensures ReleaseSlot(s, 1).slots == Initial().slots && |ReleaseSlot(s, 1).clients| <= |s.clients|
    ensures ReleaseSlot(s, 1).pending == s.pending && ReleaseSlot(s, 1).slots[0] == FREE
  {}

  /** Even a client that connected after the scan: the silent one is released by hand, the
      slot is taken anew, and the sweep frees it. */
  lemma NewcomerSwept(a: Addr, b: Addr, heard: int, scan: int)
    requires scan - heard >= 3_001_000_000
    ensures var events := [Packet([0], a, heard), Stamp(heard), List];
            var between := [Release(1), Packet([0], b, scan), Stamp(scan), List];
            && Silent(Run(events).state.slots[0], scan)
            && Run(events + between).state.slots[0] == Slot(true, Some(1), 0, Some(b), Some(scan))
            && Run(events + between + [Release(1)]).state.slots[0] == FREE
  {
    hide Run, Initial, LowestFree, Without, Silent, ReleaseSlot;
    SilentIff(Slot(true, Some(1), 0, Some(a), Some(heard)), scan);
    FirstIsFree();
    var events := FirstConnect([], a, heard);
    assert events == [Packet([0], a, heard), Stamp(heard), List];
    var between := [Release(1), Packet([0], b, scan), Stamp(scan), List];
    ReleasedRun(events, 1);
    FirstReleased(Run(events).state, Slot(true, Some(1), 0, Some(a), Some(heard)));
    var taken := FirstConnect(events + [Release(1)], b, scan);
    assert taken == events + between;
    ReleasedRun(taken, 1);
    FirstReleased(Run(taken).state, Slot(true, Some(1), 0, Some(b), Some(scan)));
  }

  // ----------------------------------------------------------------------
  // Stopping while clients connect
  // ----------------------------------------------------------------------

  /** A connect takes the slot. */
  predicate Takes(s: State, e: Event, i: nat) {
    e.Packet? && s.pending.Idle? && 1 <= |e.data| <= BUF_LEN && e.data[0] == 0 && LowestFree(s.slots) == Some(i)
  }

  predicate Frees(s: State, e: Event, i: nat) {
    e == Release(i + 1) || (e.Leave? && s.pending == Leaving(i))
  }

  /** Of the events that take or free a slot, if there are any, the last one takes it. */
  predicate TakenLast(s: State, events: seq<Event>, i: nat)
    requires Shape(s) && PendingInRange(s)
  {
    events != [] &&
    var front, e := events[..|events| - 1], events[|events| - 1];
    var t := RunFrom(s, front);
    Takes(t, e, i) || (!Frees(t, e, i) && TakenLast(s, front, i))
  }

  lemma OccupiedPacket(s: State, data: seq<byte>, addr: Addr, now: int, i: nat)
    requires Shape(s) && PendingInRange(s) && i < MAX_CLIENTS
    ensures var e := Packet(data, addr, now);
            Step(s, e).slots[i].occupied <==> Takes(s, e, i) || s.slots[i].occupied
  {
    hide FromLe;
    if 1 <= |data| <= BUF_LEN {
      assert Received(s.buf, data)[0] == data[0];
    }
    hide LowestFree;
  }

  lemma OccupiedStep(s: State, e: Event, i: nat)
    requires Shape(s) && PendingInRange(s) && i < MAX_CLIENTS
    ensures Step(s, e).slots[i].occupied <==> Takes(s, e, i) || (s.slots[i].occupied && !Frees(s, e, i))
  {
    hide OnPacket, Report, Without;
    if e.Packet? {
      OccupiedPacket(s, e.data, e.addr, e.now, i);
    }
  }

  lemma {:induction false} OccupiedRun(s: State, events: seq<Event>, i: nat)
    requires Shape(s) && PendingInRange(s) && i < MAX_CLIENTS && !s.slots[i].occupied
    ensures RunFrom(s, events).slots[i].occupied <==> TakenLast(s, events, i)
  {
    hide Step, Takes, Frees;
    if events != [] {
      var n := |events| - 1;
      OccupiedRun(s, events[..n], i);
      OccupiedStep(RunFrom(s, events[..n]), events[n], i);
    }
  }

  /** `cancel_all_clients` up to a slot, with anything in between: before each look at a
      slot, and between the look and the release. */
  function CancelRun(start: seq<Event>, gaps: seq<(seq<Event>, seq<Event>)>): seq<Event> {
    if gaps == [] then start
    else
      var n := |gaps| - 1;
      var seen := CancelRun(start, gaps[..n]) + gaps[n].0;
      if n < MAX_CLIENTS && Run(seen).state.slots[n].occupied then seen + gaps[n].1 + [Release(n + 1)] else seen
  }

  lemma TurnFrees(start: seq<Event>, gaps: seq<(seq<Event>, seq<Event>)>)
    requires 0 < |gaps| <= MAX_CLIENTS
    ensures !Run(CancelRun(start, gaps)).state.slots[|gaps| - 1].occupied
  {
    hide Run, Without;
    var n := |gaps| - 1;
    var seen := CancelRun(start, gaps[..n]) + gaps[n].0;
    if Run(seen).state.slots[n].occupied {
      RunSnoc(seen + gaps[n].1, Release(n + 1));
    }
  }

  lemma {:induction false} CancelRunGrows(start: seq<Event>, gaps: seq<(seq<Event>, seq<Event>)>, m: nat)
    requires m <= |gaps|
    ensures CancelRun(start, gaps[..m]) <= CancelRun(start, gaps)
  {
    hide Run;
    if m == |gaps| {
      assert gaps[..m] == gaps;
    } else {
      var n := |gaps| - 1;
      assert gaps[..n][..m] == gaps[..m];
      CancelRunGrows(start, gaps[..n], m);
    }
  }

  /** What has happened since a slot's turn in the cancellation. */
  function SinceTurn(start: seq<Event>, gaps: seq<(seq<Event>, seq<Event>)>, last: seq<Event>, i: nat): seq<Event>
    requires i < |gaps|
  {
    var n := |CancelRun(start, gaps[..i + 1])|;
    (if n <= |CancelRun(start, gaps)| then CancelRun(start, gaps)[n..] else []) + last
  }

  lemma SinceTurnIs(start: seq<Event>, gaps: seq<(seq<Event>, seq<Event>)>, last: seq<Event>, i: nat)
    requires i < |gaps|
    ensures CancelRun(start, gaps[..i + 1]) + SinceTurn(start, gaps, last, i) == CancelRun(start, gaps) + last
  {
    hide CancelRun;
    CancelRunGrows(start, gaps, i + 1);
  }

  /** Each slot is free after its turn. Whatever comes in between, afterwards it is occupied
      exactly if a connect has taken it since its turn and nothing has freed it again. */
  lemma CancelledIff(start: seq<Event>, gaps: seq<(seq<Event>, seq<Event>)>, last: seq<Event>, i: nat)
    requires |gaps| == MAX_CLIENTS && i < MAX_CLIENTS
    ensures Run(CancelRun(start, gaps) + last).state.slots[i].occupied
            <==> TakenLast(Run(CancelRun(start, gaps[..i + 1])).state, SinceTurn(start, gaps, last, i), i)
  {
    hide Run, CancelRun, TakenLast, SinceTurn;
    SinceTurnIs(start, gaps, last, i);
    var mark := CancelRun(start, gaps[..i + 1]);
    var rest := SinceTurn(start, gaps, last, i);
    TurnFrees(start, gaps[..i + 1]);
    RunOn(mark, rest);
    OccupiedRun(Run(mark).state, rest, i);
  }

  /** So stopping can leave a client connected: a connect takes a slot whose turn is over. */
  lemma CancelMisses(a: Addr, now: int)
    ensures var gaps := [([], []), ([Packet([0], a, now)], []), ([], []), ([], [])];
            Run(CancelRun([], gaps)).state.slots[0].occupied
  {
    var gaps: seq<(seq<Event>, seq<Event>)> := [([], []), ([Packet([0], a, now)], []), ([], []), ([], [])];
    var e := [Packet([0], a, now)];
    assert [] + e == e;
    hide Run, Step, Initial, LowestFree;
    FirstIsFree();
    RunSnoc([], e[0]);
    FirstTaken(a, now);
    assert gaps[..3][..2] == gaps[..2] && gaps[..2][..1] == gaps[..1] && gaps[..1][..0] == [];
    var s := Run(e).state;
    assert !s.slots[1].occupied && !s.slots[2].occupied && !s.slots[3].occupied;
    var none: seq<Event> := [];
    assert e + none == e && none + none == none;
    assert CancelRun([], gaps[..0]) == [];
    assert CancelRun([], gaps[..1]) == [];
    assert CancelRun([], gaps[..2]) == e;
    assert CancelRun([], gaps[..3]) == e;
  }

  lemma FirstTaken(a: Addr, now: int)
    ensures var s := Step(Initial(), Packet([0], a, now));
            s.slots[0].occupied && !s.slots[1].occupied && !s.slots[2].occupied && !s.slots[3].occupied
  {}

  predicate FreedAfter(s: State, e: Event, freed: bool) {
    s.pending.Executing? && (e == Release(s.pending.slot + 1) || freed)
  }

  /** The slot was released after the packet that waits for execution had been chosen. */
  predicate FreedSinceChosen(events: seq<Event>) {
    events != [] &&
    var front := events[..|events| - 1];
    FreedAfter(Run(front).state, events[|events| - 1], FreedSinceChosen(front))
  }

  predicate FreedAgrees(s: State, freed: bool)
    requires Shape(s) && PendingInRange(s)
  {
    s.pending.Executing? ==> (s.slots[s.pending.slot].occupied <==> !freed)
  }

  lemma FreedStep(s: State, e: Event, freed: bool)
    requires Shape(s) && PendingInRange(s) && FreedAgrees(s, freed)
    ensures FreedAgrees(Step(s, e), FreedAfter(s, e, freed))
  {
    hide FromLe, Report, LowestFree, Without;
  }

  /** A report goes to the bus for a free slot exactly in that case. */
  lemma {:induction false} LateReportIff(events: seq<Event>)
    ensures FreedAgrees(Run(events).state, FreedSinceChosen(events))
  {
    hide Run, FreedAfter;
    if events == [] {
      NothingLeft(0);
    } else {
      var front := events[..|events| - 1];
      LateReportIff(front);
      RunLast(events);
      FreedStep(Run(front).state, events[|events| - 1], FreedSinceChosen(front));
    }
  }

  /** And it does: the release comes between choosing and executing. */
  lemma LateReport(a: Addr, data: seq<byte>, now: int)
    requires 22 <= |data| <= BUF_LEN && data[0] == 1 && data[1] == 1 && FromLe(data[2..6]) > 0
    ensures var s := Run([Packet([0], a, now), Stamp(now), List, Packet(data, a, now), Release(1)]).state;
            s.pending == Executing(0) && !s.slots[0].occupied
  {
    var e3 := ConnectRun([], a, now);
    var chosen := e3 + [Packet(data, a, now)];
    RunSnoc(e3, Packet(data, a, now));
    RunSnoc(chosen, Release(1));
    hide Run, LowestFree, FromLe;
    assert Received(Run(e3).state.buf, data)[2..6] == data[2..6];
    assert chosen + [Release(1)] == [Packet([0], a, now), Stamp(now), List, Packet(data, a, now), Release(1)];
  }

  // ----------------------------------------------------------------------
  // Short packets
  // ----------------------------------------------------------------------

  /** The buffer is never cleared. From two bytes on a disconnect or a heartbeat acts on
      the slot that it names; one of a single byte on the slot that some earlier packet
      named. */
  lemma ShortPacketActsOn(s: State, data: seq<byte>, addr: Addr, now: int)
    requires Shape(s) && s.pending.Idle? && 1 <= |data| <= BUF_LEN && (data[0] == 2 || data[0] == 4)
    ensures var number: int := if |data| >= 2 then data[1] else s.buf[1];
            var t := Step(s, Packet(data, addr, now));
            var held := 1 <= number <= 4 && Holds(s.slots[number - 1], addr);
            && t.pending == (if data[0] == 2 && held then Leaving(number - 1) else Idle)
            && t.slots == if data[0] == 4 && held then s.slots[number - 1 := s.slots[number - 1].(time := Some(now))]
                          else s.slots
  {
    assert Received(s.buf, data)[0] == data[0];
    assert Received(s.buf, data)[1] == if |data| >= 2 then data[1] else s.buf[1];
  }

  /** So one and the same datagram of one client, in one and the same state of all slots,
      frees its slot or not as another client has been heard in between. */
  lemma ShortDisconnect(a: Addr, b: Addr, now: int)
    requires a != b
    ensures var connected := [Packet([0], a, now), Stamp(now), List, Packet([0], b, now), Stamp(now), List];
            var s := Run(connected + [Packet([4, 1], a, now)]).state;
            var t := Run(connected + [Packet([4, 1], a, now)] + [Packet([4, 2], b, now)]).state;
            && s.slots == t.slots
            && Step(s, Packet([2], a, now)).pending == Leaving(0)
            && Step(t, Packet([2], a, now)).pending == Idle
  {
    hide Run;
    var connected := TwoConnected(a, b, now);
    var heard := connected + [Packet([4, 1], a, now)];
    RunSnoc(connected, Packet([4, 1], a, now));
    RunSnoc(heard, Packet([4, 2], b, now));
    hide Initial;
    var u := Run(connected).state;
    var s := Step(u, Packet([4, 1], a, now));
    var t := Step(s, Packet([4, 2], b, now));
    NamedInBuffer(u, 1, a, now);
    NamedInBuffer(s, 2, b, now);
    hide Step;
    assert u.slots[0] == Held(1, a, now) && u.slots[1] == Held(2, b, now);
    assert s.slots == u.slots && t.slots == u.slots;
    ShortPacketActsOn(s, [2], a, now);
    ShortPacketActsOn(t, [2], a, now);
  }

  lemma NamedInBuffer(s: State, number: byte, a: Addr, now: int)
    requires Shape(s) && s.pending.Idle? && 1 <= number <= MAX_CLIENTS && s.slots[number - 1] == Held(number, a, now)
    ensures var t := Step(s, Packet([4, number], a, now));
            t.pending == Idle && t.buf[1] == number && t.slots == s.slots
  {
    ShortPacketActsOn(s, [4, number], a, now);
    assert Received(s.buf, [4, number])[1] == number;
    hide FromLe, LowestFree;
  }
}
