/** The WebSocket hub: its client index, the closing of send channels, and who a broadcast reaches. */
module Hub {
  const SEND_BUFFER: nat := 64

  /** A connection; the id stands for the pointer. */
  datatype Client = Client(id: nat, collections: set<string>)

  /** What byCollection has to be for a set of live clients; no collection is listed without one. */
  ghost function Index(clients: set<Client>): map<string, set<Client>> {
    map col | col in (set c <- clients, col <- c.collections :: col) :: Subscribers(clients, col)
  }

  ghost function Subscribers(clients: set<Client>, col: string): set<Client> {
    set c <- clients | col in c.collections
  }

  datatype Op = Register(c: Client) | Unregister(c: Client)

  /** The live clients and the send channels closed so far, in order. */
  datatype Membership = Membership(live: set<Client>, closed: seq<Client>)

  function Step(m: Membership, op: Op): Membership {
    match op
    case Register(c) => m.(live := m.live + {c})
    case Unregister(c) => if c in m.live then Membership(m.live - {c}, m.closed + [c]) else m
  }

  function Run(m: Membership, ops: seq<Op>): Membership
    decreases |ops|
  {
    if ops == [] then m else Run(Step(m, ops[0]), ops[1..])
  }

  class Hub {
    var clients: set<Client>
    var byCollection: map<string, set<Client>>
    var closed: seq<Client>
    var inbox: map<Client, seq<string>>
    var leaving: seq<Client>

    ghost predicate Valid()
      reads this
    {
      byCollection == Index(clients) && clients <= inbox.Keys
    }

    constructor ()
      ensures Valid() && clients == {} && closed == [] && inbox == map[] && leaving == []
    {
      clients, byCollection, closed, inbox, leaving := {}, map[], [], map[], [];
    }

    method Register(c: Client)
      requires Valid()
      modifies this
      ensures Valid()
      ensures Membership(clients, closed) == Step(Membership(old(clients), old(closed)), Op.Register(c))
      ensures inbox == old(inbox)[c := if c in old(inbox) then old(inbox)[c] else []] && leaving == old(leaving)
    {
      hide Added, Index;
      if c !in inbox {
        inbox := inbox[c := []];
      }
      ghost var before := byCollection;
      clients := clients + {c};
      var rest := c.collections;
      AddedNone(before, c);
      assert rest - rest == {};
      while rest != {}
        invariant rest <= c.collections
        invariant byCollection == Added(before, c, c.collections - rest)
        invariant inbox == old(inbox)[c := if c in old(inbox) then old(inbox)[c] else []]
        invariant closed == old(closed) && leaving == old(leaving) && clients == old(clients) + {c}
      {
        var col :| col in rest;
        AddedOne(before, c, c.collections - rest, col);
        if col !in byCollection {
          byCollection := byCollection[col := {}];
        }
        byCollection := byCollection[col := byCollection[col] + {c}];
        assert c.collections - (rest - {col}) == c.collections - rest + {col};
        rest := rest - {col};
      }
      AddedIsIndex(old(clients), c);
      assert c.collections - {} == c.collections;
    }

    /** Unregistering a client that is not live is a no-op; its channel is closed when it leaves. */
    method Unregister(c: Client)
      requires Valid()
      modifies this
      ensures Valid()
      ensures Membership(clients, closed) == Step(Membership(old(clients), old(closed)), Op.Unregister(c))
      ensures inbox == old(inbox) && leaving == old(leaving)
    {
      hide Dropped, Index;
      if c in clients {
        ghost var before := byCollection;
        clients := clients - {c};
        var rest := c.collections;
        DroppedNone(before, c);
        assert rest - rest == {};
        while rest != {}
          invariant rest <= c.collections
          invariant byCollection == Dropped(before, c, c.collections - rest)
          invariant inbox == old(inbox) && leaving == old(leaving) && closed == old(closed)
          invariant clients == old(clients) - {c}
        {
          var col :| col in rest;
          DroppedOne(before, c, c.collections - rest, col);
          if col in byCollection {
            byCollection := byCollection[col := byCollection[col] - {c}];
            if byCollection[col] == {} {
              byCollection := byCollection - {col};
            }
          }
          assert c.collections - (rest - {col}) == c.collections - rest + {col};
          rest := rest - {col};
        }
        closed := closed + [c];
        DroppedIsIndex(old(clients), c);
        assert c.collections - {} == c.collections;
      }
    }

    /**
     * Broadcast as one atomic step: every live subscriber gets the message if its buffer has
     * room, and is otherwise queued for removal; nobody else is touched.
     */
    method Broadcast(collection: string, msg: string)
      requires Valid()
      modifies this`inbox, this`leaving
      ensures Valid() && inbox.Keys == old(inbox.Keys)
      ensures forall c <- inbox :: inbox[c] == if c in Subscribers(clients, collection) && |old(inbox)[c]| < SEND_BUFFER
                                              then old(inbox)[c] + [msg] else old(inbox)[c]
      ensures |leaving| >= |old(leaving)| && leaving[..|old(leaving)|] == old(leaving)
      ensures forall c :: c in leaving[|old(leaving)|..] <==>
                c in Subscribers(clients, collection) && |old(inbox)[c]| >= SEND_BUFFER
    {
      var rest := if collection in byCollection then byCollection[collection] else {};
      assert rest == Subscribers(clients, collection);
      assert Subscribers(clients, collection) <= clients;
      hide Index, Subscribers;
      ghost var done: set<Client> := {};
      while rest != {}
        invariant rest !! done && rest + done == Subscribers(clients, collection)
        invariant inbox.Keys == old(inbox.Keys)
        invariant forall c <- inbox :: inbox[c] == if c in done && |old(inbox)[c]| < SEND_BUFFER
                                                  then old(inbox)[c] + [msg] else old(inbox)[c]
        invariant |leaving| >= |old(leaving)| && leaving[..|old(leaving)|] == old(leaving)
        invariant forall c :: c in leaving[|old(leaving)|..] <==> c in done && |old(inbox)[c]| >= SEND_BUFFER
      {
        var c :| c in rest;
        assert c in inbox;
        if |inbox[c]| < SEND_BUFFER {
          inbox := inbox[c := inbox[c] + [msg]];
        } else {
          ghost var was := leaving[|old(leaving)|..];
          leaving := leaving + [c];
          assert leaving[|old(leaving)|..] == was + [c];
        }
        rest, done := rest - {c}, done + {c};
      }
    }
  }

  // ----- the index -----

  /** The index after the client has been added under some of its collections. */
  ghost function Added(m: map<string, set<Client>>, c: Client, cols: set<string>): map<string, set<Client>> {
    map col | col in m.Keys + cols ::
      (if col in m then m[col] else {}) + (if col in cols then {c} else {})
  }

  /** The index after the client has been dropped from some of its collections. */
  ghost function Dropped(m: map<string, set<Client>>, c: Client, cols: set<string>): map<string, set<Client>> {
    map col | col in m.Keys && !(col in cols && m[col] - {c} == {}) ::
      if col in cols then m[col] - {c} else m[col]
  }

  lemma AddedNone(m: map<string, set<Client>>, c: Client)
    ensures Added(m, c, {}) == m
  {
    assert Added(m, c, {}).Keys == m.Keys;
    forall k <- m.Keys ensures Added(m, c, {})[k] == m[k] {
    }
  }

  lemma AddedOne(m: map<string, set<Client>>, c: Client, cols: set<string>, col: string)
    ensures var a := Added(m, c, cols);
            Added(m, c, cols + {col}) == a[col := (if col in a then a[col] else {}) + {c}]
  {
    var a := Added(m, c, cols);
    var b := Added(m, c, cols + {col});
    assert b.Keys == a.Keys + {col};
    forall k <- b.Keys ensures b[k] == a[col := (if col in a then a[col] else {}) + {c}][k] {
    }
  }

  lemma DroppedNone(m: map<string, set<Client>>, c: Client)
    ensures Dropped(m, c, {}) == m
  {
    assert Dropped(m, c, {}).Keys == m.Keys;
    forall k <- m.Keys ensures Dropped(m, c, {})[k] == m[k] {
    }
  }

  lemma DroppedOne(m: map<string, set<Client>>, c: Client, cols: set<string>, col: string)
    requires col !in cols
    ensures var d := Dropped(m, c, cols);
            Dropped(m, c, cols + {col}) ==
              if col !in d then d
              else if d[col] - {c} == {} then d[col := d[col] - {c}] - {col}
              else d[col := d[col] - {c}]
  {
    var d, b := Dropped(m, c, cols), Dropped(m, c, cols + {col});
    assert col in d <==> col in m;
    if col !in d {
      assert b.Keys == d.Keys;
    } else if d[col] - {c} == {} {
      assert b.Keys == d.Keys - {col};
    } else {
      assert b.Keys == d.Keys;
    }
  }

  lemma AddedIsIndex(clients: set<Client>, c: Client)
    ensures Added(Index(clients), c, c.collections) == Index(clients + {c})
  {
    var a, b := Added(Index(clients), c, c.collections), Index(clients + {c});
    assert a.Keys == b.Keys;
    forall col <- a.Keys ensures a[col] == b[col] {
      if col !in Index(clients) {
        assert Subscribers(clients, col) == {};
      }
    }
  }

  lemma DroppedIsIndex(clients: set<Client>, c: Client)
    requires c in clients
    ensures Dropped(Index(clients), c, c.collections) == Index(clients - {c})
  {
    var a, b := Dropped(Index(clients), c, c.collections), Index(clients - {c});
    forall col ensures col in a <==> col in b {
      if col in Index(clients) {
        assert Subscribers(clients, col) - {c} == Subscribers(clients - {c}, col);
        if col in b {
          var d :| d in clients - {c} && col in d.collections;
          assert d in Subscribers(clients - {c}, col);
        }
        if Subscribers(clients - {c}, col) != {} {
          var d :| d in Subscribers(clients - {c}, col);
        }
      }
    }
    forall col <- a.Keys ensures a[col] == b[col] {
      assert Subscribers(clients, col) - {c} == Subscribers(clients - {c}, col);
      if col !in c.collections {
        assert c !in Subscribers(clients, col);
      }
    }
  }

  // ----- channels -----

  predicate RegistersOnce(ops: seq<Op>) {
    forall i, j :: 0 <= i < j < |ops| && ops[i].Register? && ops[j].Register? ==> ops[i].c != ops[j].c
  }

  /** From an empty hub, a channel is closed at most once, and exactly when its client has left. */
  lemma {:induction false} ChannelsCloseOnce(ops: seq<Op>)
    requires RegistersOnce(ops)
    ensures var m := Run(Membership({}, []), ops);
            && (forall i, j :: 0 <= i < j < |m.closed| ==> m.closed[i] != m.closed[j])
            && (forall c :: c in m.closed <==> Op.Register(c) in ops && c !in m.live)
            && (forall c <- m.live :: Op.Register(c) in ops)
    decreases |ops|
  {
    if ops == [] {
    } else {
      var init, last := ops[..|ops| - 1], ops[|ops| - 1];
      ChannelsCloseOnce(init);
      RunLast(Membership({}, []), init, last);
      assert ops == init + [last];
      assert forall op :: op in ops <==> op in init || op == last;
      if last.Register? {
        forall i | 0 <= i < |init| ensures init[i] != last {
          assert ops[i] == init[i] && ops[|ops| - 1] == last;
        }
      }
    }
  }

  lemma {:induction false} RunLast(m: Membership, ops: seq<Op>, op: Op)
    ensures Run(m, ops + [op]) == Step(Run(m, ops), op)
    decreases |ops|
  {
    if ops == [] {
      assert [] + [op] == [op];
    } else {
      RunLast(Step(m, ops[0]), ops[1..], op);
      assert (ops + [op])[1..] == ops[1..] + [op];
    }
  }

  // ----- subscriptions -----

  function SplitCommas(s: string): seq<string> {
    if s == [] then [""]
    else
      var rest := SplitCommas(s[1..]);
      if s[0] == ',' then [""] + rest else [[s[0]] + rest[0]] + rest[1..]
  }

  predicate IsSpace(c: char) {
    c == ' ' || '\t' <= c <= '\r'
  }

  function TrimSpace(s: string): string {
    if s != [] && IsSpace(s[0]) then TrimSpace(s[1..])
    else if s != [] && IsSpace(s[|s| - 1]) then TrimSpace(s[..|s| - 1])
    else s
  }

  /** The collections the WebSocket handler registers a connection for. */
  function Subscriptions(query: string): set<string> {
    set name <- SplitCommas(query) | TrimSpace(name) != "" :: TrimSpace(name)
  }

  /** A client as the handler makes it. */
  ghost predicate FromHandler(c: Client) {
    exists query :: c.collections == Subscriptions(query)
  }

  /** A broadcast without a collection, as CounterIncremented sends it, reaches nobody. */
  lemma UnnamedReachesNobody(clients: set<Client>)
    requires forall c <- clients :: FromHandler(c)
    ensures Subscribers(clients, "") == {}
  {
    forall c <- clients ensures "" !in c.collections {
      var query :| c.collections == Subscriptions(query);
    }
  }
}
