/**
 * The socket.io signaling relay of backend/server.js and its copy in
 * backend/server-https.js. The relay keeps nothing but room membership:
 * `register` joins the rooms the user id names, `callUser` and `answerCall`
 * emit to the rooms an id names, and `startClassCall` broadcasts to every
 * connection but the sender. The two servers differ in two ways. server.js
 * names rooms by `userId.toString()` and logs template literals of the
 * message fields. server-https.js names rooms by the id value itself,
 * spreading an array into its elements, and logs only the user id.
 */
module Signaling {
  import opened Wrappers
  import opened JsStrings

  /** The JavaScript values a client can send, integers standing for
      numbers. socket.io decodes a message with JSON.parse, so an object's
      own properties never hold functions. */
  datatype JsValue =
    | Undefined
    | Null
    | Bool(b: bool)
    | Num(n: int)
    | Str(s: string)
    | Array(elements: seq<JsValue>)
    | Object(fields: map<string, JsValue>)

  /** Reading property key of v; None is the TypeError of reading a property of undefined or
      null. A property an object does not have reads as undefined. */
  function Field(v: JsValue, key: string): (r: Option<JsValue>)
    ensures r.None? <==> v == Undefined || v == Null
  {
    match v
    case Undefined => None
    case Null => None
    case Object(fields) => Some(if key in fields then fields[key] else Undefined)
    case _ => Some(Undefined)
  }

  /** Whether converting v to a string throws a TypeError: an object with an
      own "toString" property (not a function, so neither it nor the
      inherited valueOf gives a primitive), or an array holding such a value
      at any depth. */
  predicate ConversionThrows(v: JsValue) {
    match v
    case Object(fields) => "toString" in fields
    case Array(es) => exists i :: 0 <= i < |es| && ConversionThrows(es[i])
    case _ => false
  }

  /** Array.prototype.join(",") over converted elements; None when one of
      the conversions threw. */
  function JoinConverted(parts: seq<Option<string>>): (r: Option<string>)
    ensures r.None? <==> exists i :: 0 <= i < |parts| && parts[i].None?
  {
    if exists i :: 0 <= i < |parts| && parts[i].None? then None
    else Some(Join(seq(|parts|, i requires 0 <= i < |parts| => parts[i].value), ','))
  }

  /** The string a template literal `${v}` makes of v (the ToString operation
      of ECMA-262, section 7.1.17); None is its TypeError. An array is joined
      with ",", undefined and null elements giving "". */
  function TemplateString(v: JsValue): (r: Option<string>)
    ensures r.None? <==> ConversionThrows(v)
  {
    match v
    case Undefined => Some("undefined")
    case Null => Some("null")
    case Bool(b) => Some(if b then "true" else "false")
    case Num(n) => Some(IntToString(n))
    case Str(s) => Some(s)
    case Object(fields) => if "toString" in fields then None else Some("[object Object]")
    case Array(es) =>
      var parts := seq(|es|, i requires 0 <= i < |es| =>
        if es[i].Undefined? || es[i].Null? then Some("") else TemplateString(es[i]));
      assert forall i | 0 <= i < |es| :: parts[i].None? <==> ConversionThrows(es[i]);
      JoinConverted(parts)
  }

  /** The result of calling v.toString(): reading the method of undefined or
      null throws; otherwise the method a decoded value inherits converts it
      as a template literal does. */
  function ToString(v: JsValue): (r: Option<string>)
    ensures r.None? <==> v == Undefined || v == Null || ConversionThrows(v)
    ensures r.Some? ==> r == TemplateString(v)
  {
    if v.Undefined? || v.Null? then None else TemplateString(v)
  }

  /** The rooms an id names. On server.js this is the one room named by the id's string
      form. On server-https.js it is the id value itself, or each element of an
      array, since socket.join and io.to spread an array. */
  function RoomKeys(normalizeKeys: bool, id: JsValue): (r: Option<set<JsValue>>)
    ensures normalizeKeys ==> (r.Some? <==> ToString(id).Some?) && (r.Some? ==> r.value == {Str(ToString(id).value)})
    ensures !normalizeKeys ==> r.Some? && forall k :: k in r.value <==> (if id.Array? then k in id.elements else k == id)
  {
    if !normalizeKeys then Some(if id.Array? then set k | k in id.elements else {id})
    else match ToString(id)
      case None => None
      case Some(s) => Some({Str(s)})
  }

  /** Naming the rooms fails only on server.js, and there exactly for
      undefined, null and values whose conversion throws. */
  lemma RoomKeysFail(normalizeKeys: bool, id: JsValue)
    ensures RoomKeys(normalizeKeys, id).None? <==>
      normalizeKeys && (id == Undefined || id == Null || ConversionThrows(id))
  {
  }

  /** An object with its own "toString", such as {"toString": 1}, has no
      string form: toString is not a function and the template literal
      throws too. On server-https.js it still names a room. */
  lemma OwnToStringThrows()
    ensures var v := Object(map["toString" := Num(1)]);
      ToString(v).None? && TemplateString(v).None? && RoomKeys(false, v) == Some({v})
  {
  }

  /** An array id is one room named "a,b" on server.js and the two rooms
      "a" and "b" on server-https.js. */
  lemma ArrayIds()
    ensures RoomKeys(true, Array([Str("a"), Str("b")])) == Some({Str("a,b")})
    ensures RoomKeys(false, Array([Str("a"), Str("b")])) == Some({Str("a"), Str("b")})
  {
    var parts := [Some("a"), Some("b")];
    assert seq(2, i requires 0 <= i < 2 =>
      if [Str("a"), Str("b")][i].Undefined? || [Str("a"), Str("b")][i].Null? then Some("")
      else TemplateString([Str("a"), Str("b")][i])) == parts;
    assert seq(|parts|, i requires 0 <= i < |parts| => parts[i].value) == ["a", "b"];
    assert Join(["a", "b"], ',') == "a,b";
    assert (set k | k in [Str("a"), Str("b")]) == {Str("a"), Str("b")};
  }

  /** On server.js the number 42 and the string "42" name the same room; on
      server-https.js they name two different rooms. */
  lemma NumericAndStringIds()
    ensures RoomKeys(true, Num(42)) == RoomKeys(true, Str("42"))
    ensures RoomKeys(false, Num(42)) != RoomKeys(false, Str("42"))
  {
    assert NatToString(42) == "42";
    assert Str("42") !in RoomKeys(false, Num(42)).value;
  }

  type ConnId = string
  type Rooms = map<JsValue, set<ConnId>>

  /** The connections in a room; a room nobody joined is empty. */
  function Members(rooms: Rooms, key: JsValue): set<ConnId> {
    if key in rooms then rooms[key] else {}
  }

  /** A connection joins every room in keys. */
  function JoinRooms(rooms: Rooms, keys: set<JsValue>, c: ConnId): (r: Rooms)
    ensures forall k :: Members(r, k) == if k in keys then Members(rooms, k) + {c} else Members(rooms, k)
  {
    map k | k in rooms.Keys + keys :: if k in keys then Members(rooms, k) + {c} else rooms[k]
  }

  /** Joining rooms twice is joining them once. */
  lemma JoinRoomsIdempotent(rooms: Rooms, keys: set<JsValue>, c: ConnId)
    ensures JoinRooms(JoinRooms(rooms, keys, c), keys, c) == JoinRooms(rooms, keys, c)
  {
    var once := JoinRooms(rooms, keys, c);
    var twice := JoinRooms(once, keys, c);
    assert twice.Keys == once.Keys;
    forall k | k in once
      ensures twice[k] == once[k]
    {
      assert twice[k] == Members(twice, k) && once[k] == Members(once, k);
    }
  }

  /** What the adapter does when a socket disconnects: it leaves every room,
      and rooms left empty disappear. */
  function LeaveAll(rooms: Rooms, c: ConnId): (r: Rooms)
    ensures forall k :: Members(r, k) == Members(rooms, k) - {c}
    ensures forall k | k in r :: r[k] != {}
  {
    map k | k in rooms && rooms[k] - {c} != {} :: rooms[k] - {c}
  }

  /** The sockets an emission to the rooms keys reaches, each once: the
      members of any of them. socket.io's adapter sends to every socket when
      the set of rooms is empty. */
  function Recipients(connections: set<ConnId>, rooms: Rooms, keys: set<JsValue>): (r: set<ConnId>)
    ensures keys == {} ==> r == connections
    ensures keys != {} ==> forall c :: c in r <==> exists k :: k in keys && c in Members(rooms, k)
  {
    if keys == {} then connections
    else set k, c | k in keys && c in Members(rooms, k) :: c
  }

  /** Every member is connected, no room is empty, and each connection sits
      in the room named by its own id. */
  ghost predicate Consistent(connections: set<ConnId>, rooms: Rooms) {
    && (forall k | k in rooms :: rooms[k] != {} && rooms[k] <= connections)
    && (forall c | c in connections :: c in Members(rooms, Str(c)))
  }

  /** A connected socket joining rooms keeps the rooms consistent. */
  lemma JoinRoomsConsistent(connections: set<ConnId>, rooms: Rooms, keys: set<JsValue>, c: ConnId)
    requires Consistent(connections, rooms) && c in connections
    ensures Consistent(connections, JoinRooms(rooms, keys, c))
  {
    JoinRoomsKeepsRoomsConnected(connections, rooms, keys, c);
    JoinRoomsKeepsOwnRooms(connections, rooms, keys, c);
  }

  /** First half of JoinRoomsConsistent: rooms stay non-empty and connected. */
  lemma JoinRoomsKeepsRoomsConnected(connections: set<ConnId>, rooms: Rooms, keys: set<JsValue>, c: ConnId)
    requires forall k | k in rooms :: rooms[k] != {} && rooms[k] <= connections
    requires c in connections
    ensures var r := JoinRooms(rooms, keys, c);
      forall k | k in r :: r[k] != {} && r[k] <= connections
  {
    var r := JoinRooms(rooms, keys, c);
    forall k | k in r
      ensures r[k] != {} && r[k] <= connections
    {
      assert r[k] == Members(r, k);
      if k !in keys {
        assert k in rooms;
      }
    }
  }

  /** Second half of JoinRoomsConsistent: each connection stays in its own room. */
  lemma JoinRoomsKeepsOwnRooms(connections: set<ConnId>, rooms: Rooms, keys: set<JsValue>, c: ConnId)
    requires forall x | x in connections :: x in Members(rooms, Str(x))
    ensures var r := JoinRooms(rooms, keys, c);
      forall x | x in connections :: x in Members(r, Str(x))
  {
    var r := JoinRooms(rooms, keys, c);
    forall x | x in connections
      ensures x in Members(r, Str(x))
    {
      assert Members(rooms, Str(x)) <= Members(r, Str(x));
    }
  }

  /** One message handed to one connection. */
  datatype Delivery = Delivery(conn: ConnId, event: string, payload: JsValue)

  /** How a handler ends: the messages it emitted, or a TypeError that no
      code catches. socket.io runs the handler from a process.nextTick
      callback, so such a throw ends the Node process. */
  datatype Handling = Handled(deliveries: set<Delivery>) | Crashed

  /** The incomingCall payload: the caller's signal data, id and name under
      the names the callee reads. */
  function IncomingCall(data: JsValue): JsValue
    requires Field(data, "signalData").Some?
  {
    Object(map[
      "signal" := Field(data, "signalData").value,
      "from" := Field(data, "from").value,
      "name" := Field(data, "callerName").value])
  }

  /** The classCallStarted payload: class, teacher, room and teacher name
      copied from the request. */
  function ClassCall(data: JsValue): JsValue
    requires Field(data, "classId").Some?
  {
    Object(map[
      "classId" := Field(data, "classId").value,
      "teacherId" := Field(data, "teacherId").value,
      "roomId" := Field(data, "roomId").value,
      "teacherName" := Field(data, "teacherName").value])
  }

  /** The rooms `field` of data addresses, None when reading it throws. */
  function Target(normalizeKeys: bool, data: JsValue, field: string): (r: Option<set<JsValue>>)
    ensures r.None? <==> (data == Undefined || data == Null ||
      (normalizeKeys && ToString(Field(data, field).value).None?))
  {
    match Field(data, field)
    case None => None
    case Some(id) => RoomKeys(normalizeKeys, id)
  }

  /** The relay: the connected sockets and the room memberships. */
  class Relay {
    /** true for server.js (rooms named by toString, and the logging lines),
        false for server-https.js. */
    const normalizeKeys: bool
    var connections: set<ConnId>
    var rooms: Rooms

    /** Every member is connected, no room is empty, and each socket sits
        in the room named by its own id, as socket.io arranges. */
    ghost predicate Valid()
      reads this
    {
      Consistent(connections, rooms)
    }

    constructor (normalizeKeys: bool)
      ensures Valid()
      ensures this.normalizeKeys == normalizeKeys && connections == {} && rooms == map[]
    {
      this.normalizeKeys := normalizeKeys;
      connections := {};
      rooms := map[];
    }

    /** io.on('connection'): the socket joins the room of its own id. */
    method Connect(c: ConnId)
      requires Valid() && c !in connections
      modifies this`connections, this`rooms
      ensures Valid()
      ensures connections == old(connections) + {c}
      ensures rooms == JoinRooms(old(rooms), {Str(c)}, c)
    {
      var joined := JoinRooms(rooms, {Str(c)}, c);
      JoinRoomsKeepsRoomsConnected(connections + {c}, rooms, {Str(c)}, c);
      JoinRoomsKeepsOwnRooms(connections, rooms, {Str(c)}, c);
      connections := connections + {c};
      rooms := joined;
      assert Consistent(connections, rooms);
    }

    /** socket.on('register', userId): join the rooms userId names, then log
        `${userId}`. A connection may sit in several rooms. On server.js
        userId.toString() throws before the join (rooms unchanged); on
        server-https.js the join happens and the log line throws after it. */
    method Register(c: ConnId, userId: JsValue) returns (crashed: bool)
      requires Valid() && c in connections
      modifies this`rooms
      ensures Valid()
      ensures crashed <==> if normalizeKeys then userId == Undefined || userId == Null || ConversionThrows(userId)
                           else ConversionThrows(userId)
      ensures normalizeKeys && crashed ==> rooms == old(rooms)
      ensures !(normalizeKeys && crashed) ==> rooms == JoinRooms(old(rooms), RoomKeys(normalizeKeys, userId).value, c)
    {
      var keys := RoomKeys(normalizeKeys, userId);
      RoomKeysFail(normalizeKeys, userId);
      if keys.None? {
        return true;
      }
      var joined := JoinRooms(rooms, keys.value, c);
      JoinRoomsConsistent(connections, rooms, keys.value, c);
      rooms := joined;
      assert Consistent(connections, rooms);
      crashed := TemplateString(userId).None?;
    }

    /** socket.on('disconnect'): the handler only logs; socket.io takes the
        socket out of every room. */
    method Disconnect(c: ConnId)
      requires Valid() && c in connections
      modifies this`connections, this`rooms
      ensures Valid()
      ensures connections == old(connections) - {c}
      ensures rooms == LeaveAll(old(rooms), c)
    {
      connections := connections - {c};
      rooms := LeaveAll(rooms, c);
    }

    /** socket.on('callUser', data): incomingCall to every socket the rooms
        data.userToCall names reach, and to no one else. Reading a property
        of an undefined or null data throws. On server.js the log line
        `${data.from}`/`${data.userToCall}` and data.userToCall.toString()
        throw too. */
    function CallUser(data: JsValue): (out: Handling)
      reads this
      ensures out.Crashed? <==> (data == Undefined || data == Null ||
        (normalizeKeys && (ConversionThrows(Field(data, "from").value) ||
                           ToString(Field(data, "userToCall").value).None?)))
      ensures out.Handled? ==> forall d | d in out.deliveries ::
        && d.conn in Recipients(connections, rooms, Target(normalizeKeys, data, "userToCall").value)
        && d.event == "incomingCall" && d.payload == IncomingCall(data)
      ensures out.Handled? ==>
        forall c | c in Recipients(connections, rooms, Target(normalizeKeys, data, "userToCall").value) ::
          Delivery(c, "incomingCall", IncomingCall(data)) in out.deliveries
    {
      if data.Undefined? || data.Null? then Crashed
      else if normalizeKeys && (TemplateString(Field(data, "from").value).None? ||
                                TemplateString(Field(data, "userToCall").value).None?) then Crashed
      else match Target(normalizeKeys, data, "userToCall")
        case None => Crashed
        case Some(keys) =>
          Handled(set c | c in Recipients(connections, rooms, keys) :: Delivery(c, "incomingCall", IncomingCall(data)))
    }

    /** socket.on('answerCall', data): callAccepted carrying data.signal
        itself to every socket the rooms data.to names reach; it throws when
        data is undefined or null and, on server.js, when data.to.toString()
        does. */
    function AnswerCall(data: JsValue): (out: Handling)
      reads this
      ensures out.Crashed? <==> (data == Undefined || data == Null ||
        (normalizeKeys && ToString(Field(data, "to").value).None?))
      ensures out.Handled? ==> forall d | d in out.deliveries ::
        && d.conn in Recipients(connections, rooms, Target(normalizeKeys, data, "to").value)
        && d.event == "callAccepted" && d.payload == Field(data, "signal").value
      ensures out.Handled? ==>
        forall c | c in Recipients(connections, rooms, Target(normalizeKeys, data, "to").value) ::
          Delivery(c, "callAccepted", Field(data, "signal").value) in out.deliveries
    {
      match Target(normalizeKeys, data, "to")
      case None => Crashed
      case Some(keys) =>
        Handled(set c | c in Recipients(connections, rooms, keys) :: Delivery(c, "callAccepted", Field(data, "signal").value))
    }

    /** socket.on('startClassCall', data): socket.broadcast.emit sends
        classCallStarted to every connected socket outside the room named by
        the sender's id, whatever class it belongs to. That room holds the
        sender and any socket that registered under the sender's id. An
        undefined or null data throws at its first property read, and on
        server.js the log line `${data.roomId}`/`${data.teacherName}` can
        throw. */
    function StartClassCall(sender: ConnId, data: JsValue): (out: Handling)
      reads this
      ensures out.Crashed? <==> (data == Undefined || data == Null ||
        (normalizeKeys && (ConversionThrows(Field(data, "roomId").value) ||
                           ConversionThrows(Field(data, "teacherName").value))))
      ensures out.Handled? ==> forall d | d in out.deliveries ::
        && d.conn in connections && d.conn !in Members(rooms, Str(sender))
        && d.event == "classCallStarted" && d.payload == ClassCall(data)
      ensures out.Handled? ==>
        forall c | c in connections && c !in Members(rooms, Str(sender)) ::
          Delivery(c, "classCallStarted", ClassCall(data)) in out.deliveries
    {
      if data.Undefined? || data.Null? then Crashed
      else if normalizeKeys && (TemplateString(Field(data, "roomId").value).None? ||
                                TemplateString(Field(data, "teacherName").value).None?) then Crashed
      else Handled(set c | c in connections && c !in Members(rooms, Str(sender)) ::
                     Delivery(c, "classCallStarted", ClassCall(data)))
    }
  }

  // ---------------------------------------------------------------------------
  // Properties
  // ---------------------------------------------------------------------------

  /** Registering the same id twice leaves the rooms as one registration
      does, so a call is not delivered twice. */
  lemma RegisterTwiceIsOnce(normalizeKeys: bool, rooms: Rooms, userId: JsValue, c: ConnId)
    requires RoomKeys(normalizeKeys, userId).Some?
    ensures var keys := RoomKeys(normalizeKeys, userId).value;
      JoinRooms(JoinRooms(rooms, keys, c), keys, c) == JoinRooms(rooms, keys, c)
  {
    JoinRoomsIdempotent(rooms, RoomKeys(normalizeKeys, userId).value, c);
  }

  /** Two devices registered under one user id both receive the call. */
  lemma EveryDeviceRings(r: Relay, data: JsValue, key: JsValue, phone: ConnId, laptop: ConnId)
    requires data.Object? && (r.normalizeKeys ==> !ConversionThrows(Field(data, "from").value))
    requires Target(r.normalizeKeys, data, "userToCall").Some?
    requires key in Target(r.normalizeKeys, data, "userToCall").value
    requires phone in Members(r.rooms, key) && laptop in Members(r.rooms, key)
    ensures r.CallUser(data).Handled?
    ensures Delivery(phone, "incomingCall", IncomingCall(data)) in r.CallUser(data).deliveries
    ensures Delivery(laptop, "incomingCall", IncomingCall(data)) in r.CallUser(data).deliveries
  {
  }

  /** A call to rooms nobody joined delivers nothing. */
  lemma EmptyRoomDeliversNothing(r: Relay, data: JsValue)
    requires data.Object? && (r.normalizeKeys ==> !ConversionThrows(Field(data, "from").value))
    requires Target(r.normalizeKeys, data, "userToCall").Some?
    requires Target(r.normalizeKeys, data, "userToCall").value != {}
    requires forall k | k in Target(r.normalizeKeys, data, "userToCall").value :: k !in r.rooms
    ensures r.CallUser(data) == Handled({})
  {
    var keys := Target(r.normalizeKeys, data, "userToCall").value;
    assert Recipients(r.connections, r.rooms, keys) == {};
  }

  /** On server-https.js a call addressed to the empty array names no room,
      and socket.io then sends it to every connected socket. */
  lemma EmptyArrayCallsEveryone(r: Relay, data: JsValue, c: ConnId)
    requires !r.normalizeKeys && data.Object? && Field(data, "userToCall") == Some(Array([]))
    requires c in r.connections
    ensures r.CallUser(data).Handled?
    ensures Delivery(c, "incomingCall", IncomingCall(data)) in r.CallUser(data).deliveries
  {
    assert RoomKeys(false, Array([])).value == {};
    assert Target(false, data, "userToCall") == Some({});
  }

  /** On a consistent relay a class call never comes back to its sender,
      and it reaches every connected socket outside the sender's own room,
      including a member of no other room. */
  lemma BroadcastSkipsSenderRoom(r: Relay, sender: ConnId, data: JsValue, other: ConnId)
    requires r.Valid() && sender in r.connections
    requires data.Object?
    requires r.normalizeKeys ==> !ConversionThrows(Field(data, "roomId").value) &&
                                 !ConversionThrows(Field(data, "teacherName").value)
    requires other in r.connections && other !in Members(r.rooms, Str(sender))
    ensures r.StartClassCall(sender, data).Handled?
    ensures forall d | d in r.StartClassCall(sender, data).deliveries :: d.conn != sender
    ensures Delivery(other, "classCallStarted", ClassCall(data)) in r.StartClassCall(sender, data).deliveries
    ensures ClassCall(data).fields.Keys == {"classId", "teacherId", "roomId", "teacherName"}
  {
    assert sender in Members(r.rooms, Str(sender));
  }

  /** A socket that registered with the sender's id as its user id sits in
      the sender's room, so the class call skips it as it skips the sender. */
  lemma RegisteredUnderSenderIdSkipped(r: Relay, before: Rooms, sender: ConnId, b: ConnId, data: JsValue)
    requires r.rooms == JoinRooms(before, RoomKeys(r.normalizeKeys, Str(sender)).value, b)
    ensures b in Members(r.rooms, Str(sender))
    ensures r.StartClassCall(sender, data).Handled? ==>
      forall d | d in r.StartClassCall(sender, data).deliveries :: d.conn != b
  {
    assert Str(sender) in RoomKeys(r.normalizeKeys, Str(sender)).value;
  }

  /** A socket that registers with the number 42 is reached by a call
      addressed to the string "42" on server.js and not on server-https.js. */
  lemma NumberRegisteredStringCalled(normalizeKeys: bool, rooms: Rooms, c: ConnId)
    requires c !in Members(rooms, Str("42"))
    ensures var after := JoinRooms(rooms, RoomKeys(normalizeKeys, Num(42)).value, c);
      var keys := Target(normalizeKeys, Object(map["userToCall" := Str("42")]), "userToCall").value;
      keys == {Str("42")} && (c in Members(after, Str("42")) <==> normalizeKeys)
  {
    NumericAndStringIds();
    assert Field(Object(map["userToCall" := Str("42")]), "userToCall") == Some(Str("42"));
    assert Str("42") in RoomKeys(normalizeKeys, Num(42)).value <==> normalizeKeys;
  }
}
