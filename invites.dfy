/** Invite bookkeeping over a key-value store of string sets. An invite from `a` to `b` is the
    member `a` of the set under "invites_incoming:b" together with the member `b` of the set
    under "invites_outgoing:a". The store drops a set once its last member is removed, so a
    key exists exactly when its set is non-empty. */
module Invites {
  import opened Users

  /** The store: key -> set of members. */
  type Store = map<string, set<string>>

  const IncomingPrefix: string := "invites_incoming:"
  const OutgoingPrefix: string := "invites_outgoing:"

  function IncomingKey(u: User): string
  {
    IncomingPrefix + u
  }

  function OutgoingKey(u: User): string
  {
    OutgoingPrefix + u
  }

  /** The incoming and outgoing key families never meet: the keys differ at index 8. */
  lemma KeysDistinct(u: User, v: User)
    ensures IncomingKey(u) != OutgoingKey(v)
  {
    assert IncomingKey(u)[8] == 'i' && OutgoingKey(v)[8] == 'o';
  }

  /** Each key family names each user's set by a key of its own. */
  lemma KeysInjective(u: User, v: User)
    ensures IncomingKey(u) == IncomingKey(v) ==> u == v
    ensures OutgoingKey(u) == OutgoingKey(v) ==> u == v
  {
    assert IncomingKey(u)[|IncomingPrefix|..] == u && IncomingKey(v)[|IncomingPrefix|..] == v;
    assert OutgoingKey(u)[|OutgoingPrefix|..] == u && OutgoingKey(v)[|OutgoingPrefix|..] == v;
  }

  // ---------------------------------------------------------------------------------------
  // The store's set commands

  /** SMEMBERS: the members under a key; a missing key reads as the empty set. */
  function Members(st: Store, key: string): set<string>
  {
    if key in st then st[key] else {}
  }

  /** The store keeps no empty set. */
  ghost predicate NoEmptySets(st: Store)
  {
    forall key :: key in st ==> st[key] != {}
  }

  /** SADD: adds a member, creating the set when the key is missing. */
  function SAdd(st: Store, key: string, v: string): (r: Store)
    ensures Members(r, key) == Members(st, key) + {v}
    ensures forall k :: k != key ==> Members(r, k) == Members(st, k)
    ensures NoEmptySets(st) ==> NoEmptySets(r)
  {
    st[key := Members(st, key) + {v}]
  }

  /** SREM: removes a member; the key disappears with its last member. */
  function SRem(st: Store, key: string, v: string): (r: Store)
    ensures Members(r, key) == Members(st, key) - {v}
    ensures forall k :: k != key ==> Members(r, k) == Members(st, k)
    ensures NoEmptySets(st) ==> NoEmptySets(r)
  {
    var rest := Members(st, key) - {v};
    if rest == {} then st - {key} else st[key := rest]
  }

  /** Removing a member that is not there leaves a store without empty sets unchanged. */
  lemma SRemAbsent(st: Store, key: string, v: string)
    requires NoEmptySets(st) && v !in Members(st, key)
    ensures SRem(st, key, v) == st
  {
    if key in st {
      assert st[key] - {v} == st[key];
    } else {
      assert st - {key} == st;
    }
  }

  // ---------------------------------------------------------------------------------------
  // The service's operations on a store

  /** add_invite(from, to): `from` joins to's incoming set, then `to` joins from's outgoing set. */
  function AddInviteSpec(st: Store, from: User, to: User): Store
  {
    SAdd(SAdd(st, IncomingKey(to), from), OutgoingKey(from), to)
  }

  /** remove_invite(from, to): the same two members leave the same two sets. */
  function RemoveInviteSpec(st: Store, from: User, to: User): Store
  {
    SRem(SRem(st, IncomingKey(to), from), OutgoingKey(from), to)
  }

  /** The result of get_state: who invited the user, and whom the user invited. */
  datatype InviteState = InviteState(incoming: set<User>, outgoing: set<User>)

  function StateOf(st: Store, u: User): InviteState
  {
    InviteState(Members(st, IncomingKey(u)), Members(st, OutgoingKey(u)))
  }

  /** invites_expired(user1, user2): neither user2's incoming key nor user1's outgoing key exists. */
  function ExpiredIn(st: Store, user1: User, user2: User): bool
  {
    IncomingKey(user2) !in st && OutgoingKey(user1) !in st
  }

  /** Every incoming entry has its outgoing partner and vice versa. */
  ghost predicate Paired(st: Store)
  {
    forall a: User, b: User :: a in Members(st, IncomingKey(b)) <==> b in Members(st, OutgoingKey(a))
  }

  // ---------------------------------------------------------------------------------------
  // What the operations promise

  /** After add_invite(a, b), a is among b's incoming invites and b among a's outgoing ones;
      those two sets gain exactly that member and every other user's sets are unchanged. */
  lemma AddInviteEffect(st: Store, a: User, b: User)
    ensures var st' := AddInviteSpec(st, a, b);
      && StateOf(st', b).incoming == StateOf(st, b).incoming + {a}
      && StateOf(st', a).outgoing == StateOf(st, a).outgoing + {b}
      && (forall u :: u != b ==> StateOf(st', u).incoming == StateOf(st, u).incoming)
      && (forall u :: u != a ==> StateOf(st', u).outgoing == StateOf(st, u).outgoing)
      && (forall k :: k != IncomingKey(b) && k != OutgoingKey(a) ==> Members(st', k) == Members(st, k))
  {
    KeysDistinct(b, a);
    forall u | u != b
      ensures StateOf(AddInviteSpec(st, a, b), u).incoming == StateOf(st, u).incoming
    {
      KeysInjective(u, b);
      KeysDistinct(u, a);
    }
    forall u | u != a
      ensures StateOf(AddInviteSpec(st, a, b), u).outgoing == StateOf(st, u).outgoing
    {
      KeysInjective(u, a);
      KeysDistinct(b, u);
    }
  }

  /** After remove_invite(a, b), a is not among b's incoming invites nor b among a's outgoing
      ones; those two sets lose exactly that member and every other user's sets are unchanged. */
  lemma RemoveInviteEffect(st: Store, a: User, b: User)
    ensures var st' := RemoveInviteSpec(st, a, b);
      && StateOf(st', b).incoming == StateOf(st, b).incoming - {a}
      && StateOf(st', a).outgoing == StateOf(st, a).outgoing - {b}
      && (forall u :: u != b ==> StateOf(st', u).incoming == StateOf(st, u).incoming)
      && (forall u :: u != a ==> StateOf(st', u).outgoing == StateOf(st, u).outgoing)
      && (forall k :: k != IncomingKey(b) && k != OutgoingKey(a) ==> Members(st', k) == Members(st, k))
  {
    KeysDistinct(b, a);
    forall u | u != b
      ensures StateOf(RemoveInviteSpec(st, a, b), u).incoming == StateOf(st, u).incoming
    {
      KeysInjective(u, b);
      KeysDistinct(u, a);
    }
    forall u | u != a
      ensures StateOf(RemoveInviteSpec(st, a, b), u).outgoing == StateOf(st, u).outgoing
    {
      KeysInjective(u, a);
      KeysDistinct(b, u);
    }
  }

  /** add_invite keeps every incoming entry matched by an outgoing one and vice versa. */
  lemma AddInviteKeepsPaired(st: Store, a: User, b: User)
    requires Paired(st)
    ensures Paired(AddInviteSpec(st, a, b))
  {
    var st' := AddInviteSpec(st, a, b);
    AddInviteEffect(st, a, b);
    forall u: User, v: User
      ensures u in Members(st', IncomingKey(v)) <==> v in Members(st', OutgoingKey(u))
    {
      assert Members(st', IncomingKey(v)) == StateOf(st', v).incoming;
      assert Members(st', OutgoingKey(u)) == StateOf(st', u).outgoing;
      assert u in Members(st, IncomingKey(v)) <==> v in Members(st, OutgoingKey(u));
    }
  }

  /** remove_invite keeps every incoming entry matched by an outgoing one and vice versa. */
  lemma RemoveInviteKeepsPaired(st: Store, a: User, b: User)
    requires Paired(st)
    ensures Paired(RemoveInviteSpec(st, a, b))
  {
    var st' := RemoveInviteSpec(st, a, b);
    RemoveInviteEffect(st, a, b);
    forall u: User, v: User
      ensures u in Members(st', IncomingKey(v)) <==> v in Members(st', OutgoingKey(u))
    {
      assert Members(st', IncomingKey(v)) == StateOf(st', v).incoming;
      assert Members(st', OutgoingKey(u)) == StateOf(st', u).outgoing;
      assert u in Members(st, IncomingKey(v)) <==> v in Members(st, OutgoingKey(u));
    }
  }

  /** Sending the same invite twice is the same as sending it once. */
  lemma AddInviteIdempotent(st: Store, a: User, b: User)
    ensures AddInviteSpec(AddInviteSpec(st, a, b), a, b) == AddInviteSpec(st, a, b)
  {
    var st1 := AddInviteSpec(st, a, b);
    KeysDistinct(b, a);
    assert Members(st1, IncomingKey(b)) + {a} == Members(st1, IncomingKey(b));
    assert Members(st1, OutgoingKey(a)) + {b} == Members(st1, OutgoingKey(a));
    assert SAdd(st1, IncomingKey(b), a) == st1;
  }

  /** Removing an invite that was never sent leaves a store without empty sets unchanged. */
  lemma RemoveAbsentInvite(st: Store, a: User, b: User)
    requires NoEmptySets(st)
    requires a !in StateOf(st, b).incoming && b !in StateOf(st, a).outgoing
    ensures RemoveInviteSpec(st, a, b) == st
  {
    SRemAbsent(st, IncomingKey(b), a);
    SRemAbsent(st, OutgoingKey(a), b);
  }

  /** Sending a new invite and then withdrawing it restores the store. */
  lemma AddThenRemoveInvite(st: Store, a: User, b: User)
    requires NoEmptySets(st)
    requires a !in StateOf(st, b).incoming && b !in StateOf(st, a).outgoing
    ensures RemoveInviteSpec(AddInviteSpec(st, a, b), a, b) == st
  {
    var st' := RemoveInviteSpec(AddInviteSpec(st, a, b), a, b);
    AddInviteEffect(st, a, b);
    RemoveInviteEffect(AddInviteSpec(st, a, b), a, b);
    forall k ensures (k in st' <==> k in st) && (k in st ==> st'[k] == st[k])
    {
      assert Members(st', k) == Members(st, k);
    }
  }

  /** In a store without empty sets, invites are expired between user1 and user2 exactly when
      user2 has no incoming invite and user1 no outgoing one, from or to anyone. */
  lemma ExpiredIffEmpty(st: Store, user1: User, user2: User)
    requires NoEmptySets(st)
    ensures ExpiredIn(st, user1, user2) <==>
              StateOf(st, user2).incoming == {} && StateOf(st, user1).outgoing == {}
  {
  }

  /** The service, over the store it shares with the rest of the application. */
  class InviteService {
    var store: Store

    ghost predicate Valid()
      reads this
    {
      NoEmptySets(store)
    }

    constructor()
      ensures store == map[] && Valid()
    {
      store := map[];
    }

    method AddInvite(from: User, to: User)
      requires Valid()
      modifies this
      ensures store == AddInviteSpec(old(store), from, to)
      ensures Valid()
    {
      store := SAdd(store, IncomingKey(to), from);
      store := SAdd(store, OutgoingKey(from), to);
    }

    method RemoveInvite(from: User, to: User)
      requires Valid()
      modifies this
      ensures store == RemoveInviteSpec(old(store), from, to)
      ensures Valid()
    {
      store := SRem(store, IncomingKey(to), from);
      store := SRem(store, OutgoingKey(from), to);
    }

    /** get_state: the user's incoming and outgoing invites. */
    function GetState(username: User): (r: InviteState)
      reads this
      ensures forall a :: a in r.incoming <==> a in Members(store, IncomingKey(username))
      ensures forall b :: b in r.outgoing <==> b in Members(store, OutgoingKey(username))
    {
      StateOf(store, username)
    }

    /** invites_expired: neither key exists any more. */
    function InvitesExpired(user1: User, user2: User): (r: bool)
      reads this
      ensures Valid() ==> (r <==> GetState(user2).incoming == {} && GetState(user1).outgoing == {})
    {
      ExpiredIn(store, user1, user2)
    }
  }
}
