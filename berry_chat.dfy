/** The in-memory registry of package berry: rooms created on first use, users
    keyed by id, room membership, and each user's bounded outbound queue with
    its non-blocking enqueue. Locks only serialise these operations, so the
    model is sequential. */
module BerryChat {
  import opened Wire
  import opened BerryProtocol
  import BerryId

  /** The error a failed `Send` returns: `ErrSlowClient`. */
  datatype SendError = SlowClient

  /** Storing a value of `s` under any key keeps a map's values within `s`. */
  lemma UpdateKeepsValuesWithin<K, V>(m: map<K, V>, k: K, v: V, s: set<V>)
    requires m.Values <= s && v in s
    ensures m[k := v].Values <= s
  {
    forall x | x in m[k := v].Values ensures x in s {
      var j :| j in m[k := v] && m[k := v][j] == x;
      if j != k {
        assert m[j] in m.Values;
      }
    }
  }

  /** A second store under the same key overrides the first. */
  lemma UpdateTwice<K, V>(m: map<K, V>, k: K, a: V, b: V)
    ensures m[k := a][k := b] == m[k := b]
  {
  }

  /** The members of room `roomID` in a membership map; a room that is not
      there has none. */
  function MembersIn(membership: map<string, map<string, User>>, roomID: string): map<string, User>
  {
    if roomID in membership then membership[roomID] else map[]
  }

  /** A connected participant. `out` is the buffered channel the session
      created for it, as the sequence of messages waiting in it. */
  class User {
    const id: string
    var nickname: string
    var out: seq<Message>
    const capacity: nat

    ghost predicate Valid()
      reads this`out
    {
      |out| <= capacity
    }

    constructor (id: string, capacity: nat)
      ensures this.id == id && nickname == id
      ensures out == [] && this.capacity == capacity
      ensures Valid()
    {
      this.id := id;
      nickname := id;
      out := [];
      this.capacity := capacity;
    }

    function UserID(): (uid: string)
      ensures uid == id
    {
      id
    }

    function Nickname(): (n: string)
      reads this
      ensures n == nickname
    {
      nickname
    }

    /** Non-blocking enqueue: `ErrSlowClient` when the queue is full. */
    method Send(msg: Message) returns (err: Option<SendError>)
      modifies this`out
      ensures err == (if |old(out)| < capacity then None else Some(SlowClient))
      ensures out == Offer(old(out), capacity, msg)
      ensures old(Valid()) ==> Valid()
    {
      if |out| < capacity {
        out := out + [msg];
        err := None;
      } else {
        err := Some(SlowClient);
      }
    }
  }

  /** A named broadcast group; members are keyed by user id. */
  class Room {
    const id: string
    var members: map<string, User>

    ghost predicate Valid()
      reads this`members
    {
      forall k :: k in members ==> members[k].id == k
    }

    constructor (id: string)
      ensures this.id == id && members == map[]
      ensures Valid()
    {
      this.id := id;
      members := map[];
    }

    function RoomID(): (rid: string)
      ensures rid == id
    {
      id
    }

    /** The source's stub: it reports no users whatever the membership. */
    function UsersCount(): (n: int)
      ensures n == 0
    {
      0
    }

    /** Insert under the user's id; subscribing twice changes nothing more. */
    method Subscribe(u: User)
      requires Valid()
      modifies this
      ensures Valid()
      ensures members == old(members)[u.id := u]
    {
      members := members[u.id := u];
    }

    /** Remove the user's id; unsubscribing a non-member changes nothing. */
    method Unsubscribe(u: User)
      requires Valid()
      modifies this
      ensures Valid()
      ensures members == old(members) - {u.id}
    {
      members := members - {u.id};
    }

    /** Offer `msg` to every member. A member whose queue is full misses it;
        the others still get it, and the broadcast itself never fails. */
    method Broadcast(msg: Message) returns (err: Option<SendError>)
      requires Valid()
      modifies members.Values`out
      ensures err == None
      ensures forall u :: u in members.Values ==> u.out == Offer(old(u.out), u.capacity, msg)
    {
      var pending := members.Keys;
      while pending != {}
        invariant pending <= members.Keys
        invariant forall k :: k in members && k !in pending ==>
          members[k].out == Offer(old(members[k].out), members[k].capacity, msg)
        invariant forall k :: k in pending ==> members[k].out == old(members[k].out)
        decreases pending
      {
        var k :| k in pending;
        var u := members[k];
        // a slow member is only logged
        var _ := u.Send(msg);
        pending := pending - {k};
      }
      forall u | u in members.Values
        ensures u.out == Offer(old(u.out), u.capacity, msg)
      {
        var k :| k in members && members[k] == u;
      }
      err := None;
    }
  }

  /** The registry: rooms by id, users by id. `Known` holds every user ever
      registered; room members are always among them. */
  class Chat {
    var rooms: map<string, Room>
    var users: map<string, User>
    ghost var Known: set<User>

    ghost predicate Valid()
      reads this`rooms, this`users, this`Known, rooms.Values`members
    {
      && (forall k :: k in rooms ==> rooms[k].id == k && rooms[k].Valid() && rooms[k].members.Values <= Known)
      && (forall k :: k in users ==> users[k].id == k)
      && users.Values <= Known
    }

    /** The membership of every room, as a value. */
    ghost function Membership(): map<string, map<string, User>>
      reads this`rooms, rooms.Values`members
    {
      map k | k in rooms :: rooms[k].members
    }

    /** The members of room `roomID`; a room not created yet has none. */
    ghost function MembersOf(roomID: string): map<string, User>
      reads this`rooms, rooms.Values`members
    {
      if roomID in rooms then rooms[roomID].members else map[]
    }

    lemma MembersOfIsMembersIn(roomID: string)
      ensures MembersOf(roomID) == MembersIn(Membership(), roomID)
    {
    }

    constructor ()
      ensures Valid()
      ensures rooms == map[] && users == map[] && Known == {}
    {
      rooms := map[];
      users := map[];
      Known := {};
    }

    /** When one registered room changes only its own members, and only to
        users the registry knows, the registry stays valid and its membership
        changes at that room's id alone. */
    twostate lemma OneRoomChanged(room: Room)
      requires old(Valid()) && unchanged(this)
      requires room.id in rooms && rooms[room.id] == room
      requires forall r :: r in rooms.Values && r != room ==> unchanged(r)
      requires room.Valid() && room.members.Values <= Known
      ensures Valid()
      ensures Membership() == old(Membership())[room.id := room.members]
    {
      forall k | k in rooms && rooms[k] != room
        ensures rooms[k].members == old(rooms[k].members) && rooms[k].Valid()
      {
        assert rooms[k] in rooms.Values;
        assert old(rooms[k].Valid());
      }
    }

    /** The room with the given id, created empty and registered on first use. */
    method Room(roomID: string) returns (r: Room)
      requires Valid()
      modifies this
      ensures Valid()
      ensures r.RoomID() == roomID && roomID in rooms && rooms[roomID] == r
      ensures roomID in old(rooms) ==> r == old(rooms[roomID]) && rooms == old(rooms)
      ensures roomID !in old(rooms) ==> fresh(r) && r.members == map[] && rooms == old(rooms)[roomID := r]
      ensures r.members == old(MembersOf(roomID))
      ensures Membership() == old(Membership())[roomID := r.members]
      ensures users == old(users) && Known == old(Known)
    {
      if roomID in rooms {
        r := rooms[roomID];
        assert old(Membership())[roomID] == r.members;
        return;
      }
      ghost var membership := Membership();
      r := new Room(roomID);
      assert Membership() == membership && Valid();
      rooms := rooms[roomID := r];
      assert Membership() == membership[roomID := map[]];
    }

    /** Register a new user under a freshly generated id; its nickname starts
        as its id and its queue is empty with the given capacity. */
    method CreateUser(gen: BerryId.IdGenerator, random: BerryId.RandomPair, capacity: nat) returns (u: User)
      requires Valid() && gen.Valid()
      modifies this, gen, gen.raw
      ensures Valid() && gen.Valid()
      ensures gen.counter == BerryId.NextCounter(old(gen.counter))
      ensures fresh(u) && u.id == BerryId.IdFor(random, gen.counter)
      ensures u.nickname == u.id && u.out == [] && u.capacity == capacity
      ensures users == old(users)[u.id := u] && Known == old(Known) + {u}
      ensures rooms == old(rooms) && Membership() == old(Membership())
    {
      ghost var membership := Membership();
      var id := gen.Next(random);
      assert Membership() == membership;
      u := new User(id, capacity);
      Known := Known + {u};
      UpdateKeepsValuesWithin(users, u.id, u, Known);
      users := users[u.UserID() := u];
    }

    /** The source's stub: removing a user does nothing at all. */
    method RemoveUser(u: User)
      ensures users == old(users) && rooms == old(rooms)
      ensures Membership() == old(Membership())
    {
    }
  }
}
