// The dispatcher's pool of worker connections: two maps behind one lock.
module Pool {
  import opened Types
  import Listing

  /** One connection ever made; serial numbers tell connections to the same node apart. */
  datatype Conn = Conn(serial: nat, node: string)

  /** The two maps, and the history of connections made and closed. */
  datatype Pool = Pool(
    clients: map<string, Conn>,
    conns: map<string, Conn>,
    made: seq<Conn>,
    closed: seq<Conn>)
  {
    /** The locked half of getClient, double check included. */
    function Connect(id: string, dialed: bool): Pool {
      if id in clients || !dialed then this
      else
        var conn := Conn(|made|, id);
        this.(clients := clients[id := conn], conns := conns[id := conn], made := made + [conn])
    }

    function Remove(id: string): Pool {
      if id !in conns then this
      else this.(clients := clients - {id}, conns := conns - {id}, closed := closed + [conns[id]])
    }

    function RemoveAll(ids: seq<string>): Pool
      decreases |ids|
    {
      if ids == [] then this else RemoveAll(ids[..|ids| - 1]).Remove(ids[|ids| - 1])
    }

    predicate Open(c: Conn) {
      c in made && c !in closed
    }

    /** Both maps hold the same connections, and every connection ever made is either held or closed once. */
    ghost predicate Sound() {
      && clients == conns
      && (forall id :: id in conns ==> conns[id].node == id && conns[id] in made)
      && (forall k :: 0 <= k < |made| ==> made[k].serial == k)
      && (forall c :: c in closed ==> c in made)
      && (forall i, j :: 0 <= i < j < |closed| ==> closed[i] != closed[j])
      && (forall c :: c in made ==> (c in closed <==> !(c.node in conns && conns[c.node] == c)))
    }
  }

  class ConnectionPool {
    var clients: map<string, Conn>
    var conns: map<string, Conn>
    ghost var made: seq<Conn>
    ghost var closed: seq<Conn>
    var dials: nat

    ghost function View(): Pool
      reads this
    {
      Pool(clients, conns, made, closed)
    }

    ghost predicate Valid()
      reads this
    {
      View().Sound() && dials == |made|
    }

    constructor ()
      ensures Valid() && View() == Pool(map[], map[], [], [])
    {
      clients, conns, made, closed := map[], map[], [], [];
      dials := 0;
    }

    /** The unlocked fast path: a read of `clients`. */
    method Lookup(id: string) returns (client: Option<Conn>)
      requires Valid()
      ensures client == if id in conns then Some(conns[id]) else None
    {
      client := if id in clients then Some(clients[id]) else None;
    }

    /** The slow path, under the lock. `dialed` says whether the connection could be made. */
    method Connect(id: string, dialed: bool) returns (client: Option<Conn>)
      requires Valid()
      modifies this
      ensures Valid() && View() == old(View()).Connect(id, dialed)
      ensures client == if id in conns then Some(conns[id]) else None
      ensures client.Some? <==> id in old(conns) || dialed
      ensures id in old(conns) ==> client == Some(old(conns)[id])
      ensures id in old(conns) || !dialed ==> conns == old(conns) && made == old(made) && closed == old(closed)
      ensures id !in old(conns) && dialed ==>
                && client.value.node == id && client.value !in old(made)
                && conns == old(conns)[id := client.value]
                && made == old(made) + [client.value] && closed == old(closed)
    {
      if id in clients {
        return Some(clients[id]);
      }
      if !dialed {
        return None;
      }
      var conn := Conn(dials, id);
      dials := dials + 1;
      clients := clients[id := conn];
      conns := conns[id := conn];
      made := made + [conn];
      ConnectSound(old(View()), id, dialed);
      return Some(conn);
    }

    method RemoveClient(id: string)
      requires Valid()
      modifies this
      ensures Valid() && View() == old(View()).Remove(id)
      ensures conns == old(conns) - {id} && made == old(made)
      ensures closed == old(closed) + if id in old(conns) then [old(conns)[id]] else []
    {
      if id in conns {
        closed := closed + [conns[id]];
        clients := clients - {id};
        conns := conns - {id};
        RemoveSound(old(View()), id);
      }
    }

    /** Visits the map in some order, closing and deleting as it goes. */
    method CloseConnections(order: seq<string>)
      requires Valid() && Listing.Enumerates(order, conns.Keys)
      modifies this
      ensures Valid() && View() == old(View()).RemoveAll(order)
      ensures conns == map[] && clients == map[] && made == old(made)
      ensures |closed| == |old(closed)| + |order| && old(closed) <= closed
      ensures forall k :: 0 <= k < |order| ==> closed[|old(closed)| + k] == old(conns)[order[k]]
    {
      var k := 0;
      while k < |order|
        invariant 0 <= k <= |order|
        invariant Valid() && View() == old(View()).RemoveAll(order[..k])
      {
        assert order[..k + 1][..k] == order[..k];
        RemoveClient(order[k]);
        k := k + 1;
      }
      assert order[..k] == order;
      RemoveAllLeaves(old(View()), order);
      RemoveAllCloses(old(View()), order);
      assert conns.Keys == {};
    }
  }

  lemma ConnectSound(p: Pool, id: string, dialed: bool)
    requires p.Sound()
    ensures p.Connect(id, dialed).Sound()
  {
  }

  lemma RemoveSound(p: Pool, id: string)
    requires p.Sound()
    ensures p.Remove(id).Sound()
  {
  }

  lemma {:induction false} RemoveAllSound(p: Pool, ids: seq<string>)
    requires p.Sound()
    ensures p.RemoveAll(ids).Sound()
    decreases |ids|
  {
    if ids != [] {
      RemoveAllSound(p, ids[..|ids| - 1]);
      RemoveSound(p.RemoveAll(ids[..|ids| - 1]), ids[|ids| - 1]);
    }
  }

  lemma {:induction false} RemoveAllLeaves(p: Pool, ids: seq<string>)
    ensures forall id :: id in p.RemoveAll(ids).conns <==> id in p.conns && id !in ids
    ensures forall id :: id in p.conns && id !in ids ==> p.RemoveAll(ids).conns[id] == p.conns[id]
    ensures p.RemoveAll(ids).made == p.made
    decreases |ids|
  {
    if ids != [] {
      RemoveAllLeaves(p, ids[..|ids| - 1]);
      assert ids == ids[..|ids| - 1] + [ids[|ids| - 1]];
    }
  }

  /** The connections to these nodes, in this order. */
  ghost function ConnsTo(p: Pool, ids: seq<string>): seq<Conn>
    requires forall k :: 0 <= k < |ids| ==> ids[k] in p.conns
  {
    seq(|ids|, k requires 0 <= k < |ids| => p.conns[ids[k]])
  }

  /** Each connection is closed once, in the order of the visit. */
  lemma {:induction false} RemoveAllCloses(p: Pool, ids: seq<string>)
    requires Listing.NoRepeats(ids) && forall k :: 0 <= k < |ids| ==> ids[k] in p.conns
    ensures p.RemoveAll(ids).closed == p.closed + ConnsTo(p, ids)
    decreases |ids|
  {
    if ids != [] {
      var n := |ids| - 1;
      RemoveAllCloses(p, ids[..n]);
      RemoveAllLeaves(p, ids[..n]);
      assert ids[n] !in ids[..n];
      assert ConnsTo(p, ids) == ConnsTo(p, ids[..n]) + [p.conns[ids[n]]];
    }
  }

  datatype Section = Connect(id: string, dialed: bool) | Remove(id: string) | CloseAll(order: seq<string>)

  /** The pool after any interleaving of critical sections, starting empty. */
  ghost function After(sections: seq<Section>): Pool {
    if sections == [] then Pool(map[], map[], [], [])
    else
      var past := After(sections[..|sections| - 1]);
      match sections[|sections| - 1]
      case Connect(id, dialed) => past.Connect(id, dialed)
      case Remove(id) => past.Remove(id)
      case CloseAll(order) => past.RemoveAll(order)
  }

  /** Whatever the interleaving: the maps agree, no node has two open connections, and none leaks: each
      connection ever made is either in the pool or closed, and closed only once. */
  lemma {:induction false} PoolIsSound(sections: seq<Section>)
    ensures var p := After(sections);
            && p.Sound()
            && p.clients.Keys == p.conns.Keys
            && (forall c, d :: p.Open(c) && p.Open(d) && c.node == d.node ==> c == d)
            && (forall c :: p.Open(c) <==> c.node in p.conns && p.conns[c.node] == c)
  {
    if sections != [] {
      var past := sections[..|sections| - 1];
      PoolIsSound(past);
      match sections[|sections| - 1]
      case Connect(id, dialed) => ConnectSound(After(past), id, dialed);
      case Remove(id) => RemoveSound(After(past), id);
      case CloseAll(order) => RemoveAllSound(After(past), order);
    }
  }

  /** This section takes the node's connection out of the pool, if there is one. */
  predicate Closes(section: Section, id: string) {
    match section
    case Connect(_, _) => false
    case Remove(removed) => removed == id
    case CloseAll(order) => id in order
  }

  /** Section i has connected to the node, and none after it has closed that connection. */
  ghost predicate ConnectedSince(sections: seq<Section>, i: nat, id: string) {
    && i < |sections| && sections[i] == Section.Connect(id, true)
    && forall j :: i < j < |sections| ==> !Closes(sections[j], id)
  }

  lemma SectionStep(past: Pool, section: Section, id: string)
    requires past.Sound()
    ensures var p := match section
                     case Connect(node, dialed) => past.Connect(node, dialed)
                     case Remove(node) => past.Remove(node)
                     case CloseAll(order) => past.RemoveAll(order);
            id in p.conns <==> section == Section.Connect(id, true) || (id in past.conns && !Closes(section, id))
  {
    if section.CloseAll? {
      RemoveAllLeaves(past, section.order);
    }
  }

  /** A node is in the pool exactly when a dial to it has succeeded and nothing has closed it since. */
  lemma {:induction false} InPoolExactlyWhen(sections: seq<Section>, id: string)
    ensures id in After(sections).conns <==> exists i: nat :: ConnectedSince(sections, i, id)
  {
    if sections != [] {
      var n := |sections| - 1;
      var past := sections[..n];
      InPoolExactlyWhen(past, id);
      PoolIsSound(past);
      SectionStep(After(past), sections[n], id);
      if id in After(sections).conns {
        if sections[n] == Section.Connect(id, true) {
          assert ConnectedSince(sections, n, id);
        } else {
          var i: nat :| ConnectedSince(past, i, id);
          assert ConnectedSince(sections, i, id);
        }
      } else {
        forall i: nat ensures !ConnectedSince(sections, i, id) {
          if ConnectedSince(sections, i, id) {
            assert ConnectedSince(past, i, id);
          }
        }
      }
    }
  }
}
