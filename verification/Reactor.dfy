/** Registration in the reactor of lib-poll.c: the hash table of servers and the kernel's interest set. */
module Reactor {
  import opened LibList

  /** POLL_HASH_SIZE and POLL_MAX_EVENT_NUM. */
  const SIZE: nat := 50000

  /** POLL_MAX_CLEAN_IDLE_FD_TIME, in seconds. */
  const MAX_IDLE: int := 1200

  datatype Status = OK | ERROR

  datatype Server = Server(fd: int, lastTime: int, idleTimeout: int)

  type ServerNode = Node<Server>

  /** poll_hash_fd on the fds that can be registered. */
  function Key(fd: int): nat
    requires fd >= 0
  {
    fd % SIZE
  }

  /** The condition on which the idle sweep calls the deletion. */
  predicate Idle(s: Server, now: int) {
    s.idleTimeout != 0 && now - s.lastTime > MAX_IDLE
  }

  /** The fds that can be deleted: 0 and those from 50000 on can be registered, but are refused here. */
  predicate Deletable(fd: int) {
    0 < fd < SIZE
  }

  predicate Swept(s: Server, now: int) {
    Idle(s, now) && Deletable(s.fd)
  }

  class Poll {
    const heads: seq<ServerNode>
    const maxEvent: int
    var maxConn: int
    /** The kernel's interest set. */
    var kernel: set<int>
    ghost var rings: seq<seq<ServerNode>>
    /** The registered servers by fd. */
    ghost var servers: map<int, ServerNode>

    ghost function Nodes(): set<ServerNode>
      reads `servers
    {
      NodesOf(heads) + servers.Values
    }

    /** Position j of bucket b holds a registered server whose fd hashes to b. */
    ghost predicate Holds(rs: seq<seq<ServerNode>>, m: map<int, ServerNode>, b: nat, j: nat)
      requires b < |rs| && j < |rs[b]|
      reads m.Values`item
    {
      var n := rs[b][j];
      n in m.Values && n.item.fd in m && m[n.item.fd] == n && n.item.fd >= 0 && Key(n.item.fd) == b
    }

    /** Where the servers of m are: each in the one bucket its fd hashes to. */
    ghost predicate PlacedIn(rs: seq<seq<ServerNode>>, m: map<int, ServerNode>)
      reads (NodesOf(heads) + m.Values)`item
    {
      && |heads| == |rs| == SIZE && Distinct(heads)
      && (forall b :: 0 <= b < SIZE ==> heads[b].item.fd < 0)
      && (forall b :: 0 <= b < SIZE ==> |rs[b]| > 0 && rs[b][0] == heads[b])
      && (forall fd <- m :: fd >= 0 && m[fd].item.fd == fd && m[fd] in rs[Key(fd)])
      && (forall b, j :: 0 <= b < SIZE && 1 <= j < |rs[b]| ==> Holds(rs, m, b, j))
    }

    ghost predicate Placed()
      reads `rings, `servers, Nodes()`item
    {
      PlacedIn(rings, servers)
    }

    ghost predicate Linked()
      reads `rings, `servers, Nodes()
    {
      |rings| == SIZE && forall b :: 0 <= b < SIZE ==> NodesOf(rings[b]) <= Nodes() && Ring(rings[b])
    }

    ghost predicate Counted()
      reads `kernel, `maxConn, `servers
    {
      kernel == servers.Keys && maxConn == |kernel|
    }

    ghost predicate Valid()
      reads this, Nodes()
    {
      Placed() && Linked() && Counted()
    }

    /** poll_new. */
    constructor (maxEvent: int)
      ensures Valid() && fresh(Nodes()) && servers == map[] && this.maxEvent == maxEvent
    {
      this.maxEvent, maxConn, kernel, servers := maxEvent, 0, {}, map[];
      var hs, rs := NewHeads();
      heads, rings := hs, rs;
    }

    static method NewHeads() returns (hs: seq<ServerNode>, ghost rs: seq<seq<ServerNode>>)
      ensures |hs| == |rs| == SIZE && Distinct(hs) && fresh(NodesOf(hs))
      ensures forall b :: 0 <= b < SIZE ==> hs[b].item.fd < 0 && rs[b] == [hs[b]] && Ring(rs[b])
    {
      hs, rs := [], [];
      hide Ring;
      while |hs| < SIZE
        invariant |hs| == |rs| <= SIZE && Distinct(hs) && fresh(hs)
        invariant forall b :: 0 <= b < |hs| ==> hs[b].item.fd < 0 && rs[b] == [hs[b]] && Ring(rs[b])
      {
        var h := new Node.Head(Server(-1, 0, 0));
        assert forall b :: 0 <= b < |hs| ==> hs[b] != h;
        hs, rs := hs + [h], rs + [[h]];
      }
    }

    ghost predicate Registered(node: ServerNode)
      reads `servers, node`item
    {
      node.item.fd in servers && servers[node.item.fd] == node
    }

    lemma InBucket(b: nat)
      requires Placed() && b < SIZE
      ensures NodesOf(rings[b]) <= Nodes()
      ensures forall n <- rings[b] :: n == heads[b] || (Registered(n) && n.item.fd >= 0 && Key(n.item.fd) == b)
    {
      forall n | n in rings[b]
        ensures n in Nodes() && (n == heads[b] || (Registered(n) && n.item.fd >= 0 && Key(n.item.fd) == b))
      {
        var j :| 0 <= j < |rings[b]| && rings[b][j] == n;
        if j > 0 {
          assert Holds(rings, servers, b, j);
        }
      }
    }

    lemma Inside()
      requires Placed()
      ensures forall b :: 0 <= b < SIZE ==> NodesOf(rings[b]) <= Nodes()
      ensures forall fd <- servers :: fd >= 0
      ensures |heads| == |rings| == SIZE
    {
      forall b | 0 <= b < SIZE
        ensures NodesOf(rings[b]) <= Nodes()
      {
        InBucket(b);
      }
    }

    lemma Disjoint(b: nat, c: nat)
      requires Placed() && b < SIZE && c < SIZE && b != c
      ensures NodesOf(rings[b]) !! NodesOf(rings[c])
    {
      InBucket(b);
      InBucket(c);
      assert heads[b] != heads[c];
    }

    /** A new server at the end of its bucket. */
    lemma PlacedMore(rs: seq<seq<ServerNode>>, m: map<int, ServerNode>, node: ServerNode)
      requires PlacedIn(rs, m) && node !in NodesOf(heads) + m.Values && node.item.fd >= 0 && node.item.fd !in m
      ensures PlacedIn(rs[Key(node.item.fd) := rs[Key(node.item.fd)] + [node]], m[node.item.fd := node])
    {
      var key := Key(node.item.fd);
      var rs', m' := rs[key := rs[key] + [node]], m[node.item.fd := node];
      forall b, j | 0 <= b < SIZE && 1 <= j < |rs'[b]|
        ensures Holds(rs', m', b, j)
      {
        if b != key || j < |rs[b]| {
          assert rs'[b][j] == rs[b][j] && Holds(rs, m, b, j);
        }
        assert m'[rs'[b][j].item.fd] == rs'[b][j];
      }
    }

    lemma HoldsAfterRemoval(rs: seq<seq<ServerNode>>, m: map<int, ServerNode>, key: nat, k: nat, b: nat, j: nat)
      requires PlacedIn(rs, m) && key < SIZE && 0 < k < |rs[key]| && Distinct(rs[key]) && b < SIZE
      requires var rs' := rs[key := Removed(rs[key], k)]; 1 <= j < |rs'[b]|
      requires rs[key][k].item.fd in m && m[rs[key][k].item.fd] == rs[key][k]
      ensures Holds(rs[key := Removed(rs[key], k)], m - {rs[key][k].item.fd}, b, j)
    {
      var rs', m' := rs[key := Removed(rs[key], k)], m - {rs[key][k].item.fd};
      var i := if b == key && j >= k then j + 1 else j;
      var n := rs'[b][j];
      assert n == rs[b][i] && Holds(rs, m, b, i) && Holds(rs, m, key, k);
      assert n != rs[key][k];
      assert n.item.fd in m' && m'[n.item.fd] == n;
    }

    /** A server taken out of position k of its bucket. */
    lemma PlacedLess(rs: seq<seq<ServerNode>>, m: map<int, ServerNode>, node: ServerNode, k: nat)
      requires PlacedIn(rs, m) && node.item.fd in m && m[node.item.fd] == node
      requires var key := Key(node.item.fd); 0 < k < |rs[key]| && rs[key][k] == node && Distinct(rs[key])
      ensures PlacedIn(rs[Key(node.item.fd) := Removed(rs[Key(node.item.fd)], k)], m - {node.item.fd})
      ensures node !in NodesOf(heads) + (m - {node.item.fd}).Values
    {
      var key := Key(node.item.fd);
      var rs', m' := rs[key := Removed(rs[key], k)], m - {node.item.fd};
      forall b, j | 0 <= b < SIZE && 1 <= j < |rs'[b]|
        ensures Holds(rs', m', b, j)
      {
        HoldsAfterRemoval(rs, m, key, k, b, j);
      }
      assert forall fd <- m' :: m'[fd].item.fd == fd;
      forall fd | fd in m'
        ensures m'[fd] in rs'[Key(fd)]
      {
        RemovedKeeps(rs[key], k, m[fd]);
      }
    }

    /** hash_add: to the tail of the bucket of its fd. */
    method HashAdd(node: ServerNode)
      requires Placed() && Linked() && node !in Nodes() && node.item.fd >= 0 && node.item.fd !in servers
      modifies `rings, `servers, node`next, node`prev, Nodes()`next, Nodes()`prev
      ensures Placed() && Linked() && servers == old(servers)[node.item.fd := node]
    {
      hide PlacedIn, Ring;
      Inside();
      ghost var rs := rings;
      var key := Key(node.item.fd);
      PlacedMore(rings, servers, node);
      AddLinks(node, key);
      rings := rings[key := rings[key] + [node]];
      servers := servers[node.item.fd := node];
      assert forall c :: 0 <= c < SIZE && c != key ==> rings[c] == rs[c];
      Inside();
    }

    method AddLinks(node: ServerNode, key: nat)
      requires Placed() && Linked() && node !in Nodes() && key < SIZE
      modifies node`next, node`prev, Nodes()`next, Nodes()`prev
      ensures Placed() && Ring(rings[key] + [node])
      ensures forall c :: 0 <= c < SIZE && c != key ==> Ring(rings[c])
    {
      Others(key);
      hide PlacedIn, Ring, NodesOf;
      AddTail(node, heads[key], rings[key]);
    }

    /** hash_del. */
    method HashDel(node: ServerNode, ghost k: nat)
      requires Placed() && Linked() && Registered(node)
      requires 0 < k < |rings[Key(node.item.fd)]| && rings[Key(node.item.fd)][k] == node
      modifies `rings, `servers, Nodes()`next, Nodes()`prev
      ensures Placed() && Linked() && servers == old(servers) - {node.item.fd} && node !in Nodes()
      ensures var key := Key(node.item.fd); rings == old(rings)[key := Removed(old(rings)[key], k)]
    {
      hide PlacedIn, Ring, Removed, Distinct;
      Inside();
      Others(Key(node.item.fd));
      PlacedLess(rings, servers, node, k);
      DelLinks(node, Key(node.item.fd), k);
      rings := rings[Key(node.item.fd) := Removed(rings[Key(node.item.fd)], k)];
      servers := servers - {node.item.fd};
      Inside();
    }

    method DelLinks(node: ServerNode, ghost key: nat, ghost k: nat)
      requires Placed() && Linked() && key < SIZE && 0 < k < |rings[key]| && rings[key][k] == node
      modifies Nodes()`next, Nodes()`prev
      ensures Placed() && Ring(Removed(rings[key], k))
      ensures forall c :: 0 <= c < SIZE && c != key ==> Ring(rings[c])
    {
      Others(key);
      Neighbours(rings[key], k);
      hide PlacedIn, Ring, NodesOf;
      Del(node, rings[key], k);
    }

    lemma Others(key: nat)
      requires Placed() && Linked() && key < SIZE
      ensures |heads| == |rings| == SIZE && |rings[key]| > 0 && rings[key][0] == heads[key]
      ensures Ring(rings[key]) && Distinct(rings[key]) && NodesOf(rings[key]) <= Nodes()
      ensures forall c :: 0 <= c < SIZE && c != key ==> NodesOf(rings[key]) !! NodesOf(rings[c])
    {
      forall c | 0 <= c < SIZE && c != key
        ensures NodesOf(rings[key]) !! NodesOf(rings[c])
      {
        Disjoint(key, c);
      }
    }

    /**
     * poll_add_server_with_idle_timeout. memory says whether the allocation succeeds and room whether
     * the kernel accepts one more fd; the kernel refuses an fd that it already has.
     */
    method AddServer(fd: int, callback: bool, idleTimeout: int, memory: bool, room: bool) returns (r: Node?<Server>)
      requires Valid()
      modifies this, Nodes()`next, Nodes()`prev
      ensures Valid()
      ensures r != null <==> fd >= 0 && callback && memory && room && fd !in old(servers)
      ensures r == null ==> servers == old(servers)
      ensures r != null ==> fresh(r) && servers == old(servers)[fd := r] && r.item == Server(fd, 0, idleTimeout)
      ensures fresh(Nodes() - old(Nodes()))
    {
      if !callback || fd < 0 {
        return null;
      }
      if !memory {
        return null;
      }
      if !room || fd in kernel {
        return null;
      }
      hide Valid;
      var node := new Node.Zeroed(Server(fd, 0, idleTimeout));
      Register(node);
      r := node;
    }

    method Register(node: ServerNode)
      requires Valid() && node !in Nodes() && node.item.fd >= 0 && node.item.fd !in servers
      modifies this, node`next, node`prev, Nodes()`next, Nodes()`prev
      ensures Valid() && servers == old(servers)[node.item.fd := node]
      ensures Nodes() <= old(Nodes()) + {node}
    {
      MoreNodes(node);
      hide PlacedIn, Linked, Nodes;
      AddedKey(servers, node.item.fd, node);
      kernel := kernel + {node.item.fd};
      maxConn := maxConn + 1;
      HashAdd(node);
      NodesAre();
    }

    lemma MoreNodes(node: ServerNode)
      ensures NodesOf(heads) + servers[node.item.fd := node].Values <= Nodes() + {node}
    {
    }

    lemma NodesAre()
      ensures Nodes() == NodesOf(heads) + servers.Values
    {
    }

    /** poll_del_server. */
    method DelServer(node: Node?<Server>) returns (status: Status)
      requires Valid() && (node != null ==> Registered(node))
      modifies this, Nodes()
      ensures Valid()
      ensures status == OK <==> node != null && Deletable(old(node.item.fd))
      ensures servers == if status == OK then old(servers) - {old(node.item.fd)} else old(servers)
      ensures forall fd <- servers :: servers[fd].item == old(servers[fd].item)
      ensures if status == OK then Shortened(old(rings), rings, node, Key(old(node.item.fd))) else rings == old(rings)
    {
      if node == null {
        return ERROR;
      }
      if node.item.fd <= 0 || node.item.fd >= SIZE {
        return ERROR;
      }
      ghost var k := PlaceOf(node);
      ghost var rs, key := rings, Key(node.item.fd);
      assert forall j :: 0 <= j < |rs[key]| && rs[key][j] == node ==> j == k by {
        Others(key);
      }
      hide Valid;
      Unregister(node, k);
      status := OK;
    }

    method Uncount(fd: int)
      requires Placed() && Linked() && Counted() && fd in servers
      modifies `maxConn, `kernel
      ensures Placed() && Linked()
      ensures kernel == old(kernel) - {fd} && maxConn == old(maxConn) - 1
    {
      hide PlacedIn, Ring;
      maxConn := maxConn - 1;
      kernel := kernel - {fd};
    }

    method Unregister(node: ServerNode, ghost k: nat)
      requires Valid() && Registered(node) && node.item.fd >= 0
      requires 0 < k < |rings[Key(node.item.fd)]| && rings[Key(node.item.fd)][k] == node
      modifies this, Nodes()
      ensures Valid() && servers == old(servers) - {old(node.item.fd)}
      ensures forall fd <- servers :: servers[fd].item == old(servers[fd].item)
      ensures var key := Key(old(node.item.fd)); rings == old(rings)[key := Removed(old(rings)[key], k)]
      ensures node !in Nodes()
    {
      hide *;
      InNodes(node);
      Parts();
      ghost var m, k0, c0, fd := servers, kernel, maxConn, node.item.fd;
      Uncount(node.item.fd);
      HashDel(node, k);
      OthersThan(node);
      Forget(node);
      Recounted(m, k0, c0, fd);
      Whole();
    }

    lemma InNodes(node: ServerNode)
      requires Registered(node)
      ensures node in Nodes() && node.item.fd in servers
    {
    }

    lemma OthersThan(node: ServerNode)
      requires node !in Nodes()
      ensures forall fd <- servers :: servers[fd] != node
    {
    }

    lemma Parts()
      requires Valid()
      ensures Placed() && Linked() && Counted() && kernel == servers.Keys && maxConn == |kernel|
    {
    }

    lemma Whole()
      requires Placed() && Linked() && Counted()
      ensures Valid()
    {
    }

    lemma Recounted(m: map<int, ServerNode>, k0: set<int>, c0: int, fd: int)
      requires fd in m && k0 == m.Keys && c0 == |k0|
      requires servers == m - {fd} && kernel == k0 - {fd} && maxConn == c0 - 1
      ensures Counted()
    {
    }

    /** The fd of a deleted server is cleared before its memory is given back. */
    method Forget(node: ServerNode)
      requires Placed() && Linked() && node !in Nodes()
      modifies node`item
      ensures Placed() && Linked()
    {
      hide Linked;
      Write(node, node.item.(fd := 0));
    }

    /** Writing the rest of a structure does not touch the links. */
    method Write(node: ServerNode, item: Server)
      requires Linked()
      modifies node`item
      ensures Linked() && node.item == item
    {
      hide Distinct;
      node.item := item;
    }

    lemma PlaceOf(node: ServerNode) returns (k: nat)
      requires Placed() && Registered(node)
      ensures node.item.fd >= 0
      ensures 0 < k < |rings[Key(node.item.fd)]| && rings[Key(node.item.fd)][k] == node
    {
      k :| 0 <= k < |rings[Key(node.item.fd)]| && rings[Key(node.item.fd)][k] == node;
    }

    /** hash_walk with poll_compare_fd on the bucket of an fd; C's remainder of a negative fd is not positive. */
    method Lookup(fd: int) returns (r: Node?<Server>)
      requires Valid()
      ensures r == if fd in servers then servers[fd] else null
    {
      var key := if fd >= 0 then fd % SIZE else -(-fd % SIZE);
      r := null;
      if 0 <= key < SIZE {
        Others(key);
        InBucket(key);
        r := WalkBucket(heads[key], fd, rings[key]);
        if r == null {
          NotThere(key, fd);
        }
      }
    }

    /** _hash_walk with poll_compare_fd: the first node of a bucket with that fd. */
    static method WalkBucket(head: ServerNode, fd: int, ghost ring: seq<ServerNode>) returns (r: Node?<Server>)
      requires Ring(ring) && ring[0] == head
      ensures r != null ==> r in ring && r != head && r.item.fd == fd
      ensures r == null ==> forall i :: 1 <= i < |ring| ==> ring[i].item.fd != fd
    {
      Traversal(ring, 0);
      var entry := head.next;
      ghost var j := 1;
      hide Ring;
      while entry != head
        invariant 1 <= j <= |ring| && entry == At(ring, j)
        invariant forall i :: 1 <= i < j ==> ring[i].item.fd != fd
        decreases |ring| - j
      {
        Traversal(ring, j);
        if entry.item.fd == fd {
          return entry;
        }
        entry := entry.next;
        j := j + 1;
      }
      Traversal(ring, j);
      r := null;
    }

    lemma NotThere(key: nat, fd: int)
      requires Placed() && key < SIZE && (fd >= 0 ==> Key(fd) == key)
      requires forall i :: 1 <= i < |rings[key]| ==> rings[key][i].item.fd != fd
      ensures fd !in servers
    {
      if fd in servers {
        var k := PlaceOf(servers[fd]);
        assert false;
      }
    }

    method DelServerByFd(fd: int) returns (status: Status)
      requires Valid()
      modifies this, Nodes()
      ensures Valid()
      ensures status == OK <==> fd in old(servers) && Deletable(fd)
      ensures servers == if status == OK then old(servers) - {fd} else old(servers)
      ensures forall fd <- servers :: servers[fd].item == old(servers[fd].item)
    {
      var node := Lookup(fd);
      status := DelServer(node);
    }

    /**
     * poll_accept: incoming is the fd that lib_accept gives (negative on failure), timeout whether its receive
     * timeout could be set. closed says that the fd was closed again, and notified that the accept function was
     * called with an error, which it is on any event but incoming data.
     */
    method Accept(acceptor: bool, dataIn: bool, incoming: int, timeout: bool, memory: bool, room: bool)
      returns (status: Status, closed: bool, notified: bool)
      requires Valid()
      modifies this, Nodes()`next, Nodes()`prev
      ensures Valid()
      ensures maxConn > old(maxConn) ==> maxConn <= maxEvent - 10
      ensures var full := old(maxConn) >= maxEvent - 10;
              var accepted := acceptor && dataIn && incoming >= 0;
              var added := accepted && !full && timeout && memory && room && incoming !in old(servers);
              && servers.Keys == old(servers).Keys + (if added then {incoming} else {})
              && (forall fd <- old(servers) :: servers[fd] == old(servers[fd]))
              && (added ==> fresh(servers[incoming]) && servers[incoming].item == Server(incoming, 0, 1))
              && (status == OK <==> added || (full && accepted))
              && (closed <==> accepted && !added)
              && (notified <==> acceptor && !dataIn)
      ensures fresh(Nodes() - old(Nodes()))
    {
      if !acceptor {
        return ERROR, false, false;
      }
      if !dataIn {
        return ERROR, false, true;
      }
      if maxConn >= maxEvent - 10 {
        return if incoming < 0 then ERROR else OK, incoming >= 0, false;
      }
      if incoming < 0 {
        return ERROR, false, false;
      }
      if !timeout {
        return ERROR, true, false;
      }
      var r := AddServer(incoming, true, 1, memory, room);
      if r == null {
        return ERROR, true, false;
      }
      return OK, false, false;
    }

    /**
     * A connection that has had no event is closed by the next sweep after the first MAX_IDLE seconds of the
     * clock, whenever it was accepted, unless its fd cannot be deleted.
     */
    method AcceptThenSweep(incoming: int, timeout: bool, memory: bool, room: bool, now: int)
      requires Valid() && maxConn < maxEvent - 10 && incoming >= 0 && incoming !in servers && timeout && memory && room
      modifies this, Nodes()
      ensures Valid()
      ensures incoming in servers <==> now <= 1200 || !(1 <= incoming <= 49999)
    {
      hide *;
      var status, closed, notified := Accept(true, true, incoming, timeout, memory, room);
      Sweep(now);
    }

    /** The reactor notes the time of every event of a server. */
    method Touch(node: ServerNode, now: int)
      requires Valid() && Registered(node)
      modifies node`item
      ensures Valid()
      ensures node.item == old(node.item).(lastTime := now)
    {
      Write(node, node.item.(lastTime := now));
      forall b, j | 0 <= b < SIZE && 1 <= j < |rings[b]|
        ensures Holds(rings, servers, b, j)
      {
        assert old(Holds(rings, servers, b, j));
      }
    }

    /** A server that had an event at time t is closed by a sweep exactly if it is idle since then and may be deleted. */
    method TouchThenSweep(node: ServerNode, t: int, now: int)
      requires Valid() && Registered(node)
      modifies this, Nodes()
      ensures Valid()
      ensures var fd := old(node.item.fd);
              fd in servers <==> old(node.item.idleTimeout) == 0 || now - t <= 1200 || !(1 <= fd <= 49999)
    {
      hide *;
      RegisteredFd(node);
      Touch(node, t);
      Sweep(now);
    }

    lemma RegisteredFd(node: ServerNode)
      requires Registered(node)
      ensures node.item.fd in servers && servers[node.item.fd] == node && node in Nodes()
    {
    }

    /** hash_num: counting the nodes of all buckets gives the number of registered fds, which maxConn tracks. */
    method Num() returns (num: nat)
      requires Valid()
      ensures num == |servers.Keys| == maxConn
    {
      num := 0;
      ghost var seen: set<int> := {};
      Inside();
      hide PlacedIn;
      var i := 0;
      while i < SIZE
        invariant 0 <= i <= SIZE && num == |seen|
        invariant forall fd :: fd in seen <==> fd in servers && Key(fd) < i
      {
        Others(i);
        BucketCounted(i, seen);
        seen := seen + Fds(rings[i], |rings[i]|);
        var n := CountBucket(heads[i], rings[i]);
        num := num + n;
        i := i + 1;
      }
      SeenAll(seen);
    }

    lemma SeenAll(seen: set<int>)
      requires forall fd <- servers :: fd >= 0
      requires forall fd :: fd in seen <==> fd in servers && Key(fd) < SIZE
      ensures seen == servers.Keys
    {
      forall fd
        ensures fd in seen <==> fd in servers.Keys
      {
      }
    }

    ghost function Fds(ring: seq<ServerNode>, j: nat): set<int>
      requires j <= |ring|
      reads NodesOf(ring)`item
    {
      set i | 1 <= i < j :: ring[i].item.fd
    }

    static method CountBucket(head: ServerNode, ghost ring: seq<ServerNode>) returns (n: nat)
      requires Ring(ring) && ring[0] == head
      ensures n == |ring| - 1
    {
      Traversal(ring, 0);
      var entry := head.next;
      n := 0;
      hide Ring;
      while entry != head
        invariant n < |ring| && entry == At(ring, n + 1)
        decreases |ring| - n
      {
        Traversal(ring, n + 1);
        entry := entry.next;
        n := n + 1;
      }
      Traversal(ring, n + 1);
    }

    lemma {:induction false} FdsCounted(ring: seq<ServerNode>, j: nat)
      requires 1 <= j <= |ring|
      requires forall i, k :: 1 <= i < k < |ring| ==> ring[i].item.fd != ring[k].item.fd
      ensures |Fds(ring, j)| == j - 1
    {
      if j > 1 {
        FdsCounted(ring, j - 1);
        assert Fds(ring, j) == Fds(ring, j - 1) + {ring[j - 1].item.fd};
      }
    }

    lemma FdsDiffer(b: nat)
      requires Valid() && b < SIZE
      ensures forall i, k :: 1 <= i < k < |rings[b]| ==> rings[b][i].item.fd != rings[b][k].item.fd
    {
      Others(b);
      forall i, k | 1 <= i < k < |rings[b]|
        ensures rings[b][i].item.fd != rings[b][k].item.fd
      {
        assert Holds(rings, servers, b, i) && Holds(rings, servers, b, k);
      }
    }

    lemma BucketCounted(b: nat, seen: set<int>)
      requires Valid() && b < SIZE && (forall fd <- servers :: fd >= 0)
      requires forall fd :: fd in seen <==> fd in servers && Key(fd) < b
      ensures var seen' := seen + Fds(rings[b], |rings[b]|);
              && |seen'| == |seen| + |rings[b]| - 1
              && forall fd :: fd in seen' <==> fd in servers && Key(fd) < b + 1
    {
      var fds := Fds(rings[b], |rings[b]|);
      FdsDiffer(b);
      FdsCounted(rings[b], |rings[b]|);
      forall fd
        ensures fd in fds <==> fd in servers && Key(fd) == b
      {
        if fd in fds {
          var i :| 1 <= i < |rings[b]| && rings[b][i].item.fd == fd;
          assert Holds(rings, servers, b, i);
        }
        if fd in servers && Key(fd) == b {
          var k := PlaceOf(servers[fd]);
        }
      }
      assert seen !! fds;
    }

    /** The servers at some moment, and their data. */
    static ghost predicate Snapshot(m0: map<int, ServerNode>, s0: map<int, Server>) {
      && m0.Keys == s0.Keys
      && (forall fd <- m0 :: fd >= 0 && s0[fd].fd == fd)
      && forall fd, fd' :: fd in m0 && fd' in m0 && m0[fd] == m0[fd'] ==> fd == fd'
    }

    /** Of the servers m0 with the data s0, m is what is left when those in visited have been swept. */
    static ghost predicate Left(m: map<int, ServerNode>, m0: map<int, ServerNode>, s0: map<int, Server>,
                                visited: set<int>, now: int)
      requires m0.Keys == s0.Keys
    {
      && (forall fd <- m0 :: fd in m <==> !(fd in visited && Swept(s0[fd], now)))
      && forall fd <- m :: fd in m0 && m[fd] == m0[fd]
    }

    /** That much is left of the servers m0, with their data unchanged. */
    ghost predicate Spared(m0: map<int, ServerNode>, s0: map<int, Server>, visited: set<int>, now: int)
      requires m0.Keys == s0.Keys
      reads `servers, servers.Values`item
    {
      Left(servers, m0, s0, visited, now) && forall fd <- servers :: fd in s0 && servers[fd].item == s0[fd]
    }

    /** The rest of bucket b, from its position j on, ends the bucket still; what came before has been visited. */
    ghost predicate Standing(b: nat, r0: seq<ServerNode>, j: nat, m0: map<int, ServerNode>, visited: set<int>)
      reads `rings
      requires b < |rings| && 1 <= j <= |r0|
    {
      && |rings[b]| > |r0| - j
      && rings[b][|rings[b]| - (|r0| - j)..] == r0[j..]
      && forall fd <- m0 :: m0[fd] in r0[1..j] ==> fd in visited
    }

    /** The body of the loop: an idle server at position k of bucket b is deleted if its fd allows. */
    method DeleteIfIdle(ln1: ServerNode, b: nat, now: int, ghost k: nat)
      requires Valid() && b < SIZE && 1 <= k < |rings[b]| && rings[b][k] == ln1
      modifies this, Nodes()
      ensures Valid() && Nodes() <= old(Nodes())
      ensures old(Registered(ln1))
      ensures servers == if Swept(old(ln1.item), now) then old(servers) - {old(ln1.item.fd)} else old(servers)
      ensures rings[b] == if Swept(old(ln1.item), now) then Removed(old(rings[b]), k) else old(rings[b])
      ensures forall fd <- servers :: servers[fd].item == old(servers[fd].item)
    {
      assert Holds(rings, servers, b, k);
      ghost var rs := rings;
      hide PlacedIn, Linked;
      if Idle(ln1.item, now) {
        var status := DelServer(ln1);
        assert status == OK ==> rings == rs[b := Removed(rs[b], k)];
      }
    }

    lemma LeftNext(m: map<int, ServerNode>, m': map<int, ServerNode>, m0: map<int, ServerNode>, s0: map<int, Server>,
                   visited: set<int>, now: int, fd: int)
      requires Snapshot(m0, s0) && Left(m, m0, s0, visited, now) && fd in m
      requires m' == if Swept(s0[fd], now) then m - {fd} else m
      ensures Left(m', m0, s0, visited + {fd}, now)
    {
    }

    /** One step along the bucket. */
    lemma StandingNext(r: seq<ServerNode>, k: nat, gone: bool, b: nat, r0: seq<ServerNode>, j: nat,
                       m0: map<int, ServerNode>, visited: set<int>, fd: int)
      requires 1 <= j < |r0| && k < |r| && r[k..] == r0[j..] && b < |rings|
      requires rings[b] == if gone then Removed(r, k) else r
      requires forall x <- m0 :: m0[x] in r0[1..j] ==> x in visited
      requires forall x <- m0 :: m0[x] == r0[j] ==> x == fd
      requires k >= 1
      ensures Standing(b, r0, j + 1, m0, visited + {fd})
    {
      assert r[k + 1..] == r[k..][1..] == r0[j..][1..] == r0[j + 1..];
      assert gone ==> rings[b][k..] == r[k + 1..];
      assert r0[1..j + 1] == r0[1..j] + [r0[j]];
    }

    method SweepOne(ln1: ServerNode, b: nat, now: int, ghost r0: seq<ServerNode>, ghost j: nat,
                    ghost m0: map<int, ServerNode>, ghost s0: map<int, Server>, ghost visited: set<int>)
      returns (ghost visited': set<int>)
      requires Valid() && Snapshot(m0, s0) && Spared(m0, s0, visited, now)
      requires b < SIZE && 1 <= j < |r0| && r0[j] == ln1 && Standing(b, r0, j, m0, visited)
      modifies this, Nodes()
      ensures Valid() && Nodes() <= old(Nodes())
      ensures visited <= visited' && Spared(m0, s0, visited', now) && Standing(b, r0, j + 1, m0, visited')
    {
      ghost var r, m, fd := rings[b], servers, ln1.item.fd;
      ghost var k, gone := |r| - (|r0| - j), Swept(ln1.item, now);
      assert r[k] == r[k..][0] == r0[j..][0];
      SparedAt(ln1, b, k, m0, s0, visited, now);
      assert forall x <- m :: x in s0 && m[x].item == s0[x];
      assert forall x <- m0 :: m0[x] in r0[1..j] ==> x in visited;
      visited' := visited + {fd};
      hide Valid, Removed, Left, Swept, Snapshot, Spared, Standing;
      DeleteIfIdle(ln1, b, now, k);
      LeftNext(m, servers, m0, s0, visited, now, fd);
      SparedNow(m0, s0, visited', now);
      StandingNext(r, k, gone, b, r0, j, m0, visited, fd);
    }

    lemma SparedNow(m0: map<int, ServerNode>, s0: map<int, Server>, visited: set<int>, now: int)
      requires m0.Keys == s0.Keys && Left(servers, m0, s0, visited, now)
      requires forall fd <- servers :: fd in s0 && servers[fd].item == s0[fd]
      ensures Spared(m0, s0, visited, now)
    {
    }

    lemma SparedAt(node: ServerNode, b: nat, k: nat, m0: map<int, ServerNode>, s0: map<int, Server>,
                   visited: set<int>, now: int)
      requires Valid() && Snapshot(m0, s0) && Spared(m0, s0, visited, now)
      requires b < SIZE && 1 <= k < |rings[b]| && rings[b][k] == node
      ensures node.item.fd in servers && node.item.fd in m0 && s0[node.item.fd] == node.item
      ensures forall fd <- m0 :: m0[fd] == node ==> fd == node.item.fd
    {
      assert Holds(rings, servers, b, k);
    }

    method SweepBucket(b: nat, now: int, ghost m0: map<int, ServerNode>, ghost s0: map<int, Server>,
                       ghost visited: set<int>)
      returns (ghost visited': set<int>)
      requires Valid() && Snapshot(m0, s0) && Spared(m0, s0, visited, now) && b < SIZE
      modifies this, Nodes()
      ensures Valid() && Nodes() <= old(Nodes())
      ensures visited <= visited' && Spared(m0, s0, visited', now)
      ensures forall fd <- m0 :: Key(fd) == b ==> fd in visited'
    {
      ghost var r0 := rings[b];
      StandsAtFirst(b, m0, s0, visited, now);
      hide PlacedIn, Linked, Spared, Standing, Ring;
      visited' := visited;
      var ln1 := heads[b].next;
      var ln2 := ln1.next;
      ghost var j := 1;
      while ln1 != heads[b]
        invariant Valid() && Nodes() <= old(Nodes()) && 1 <= j <= |r0|
        invariant visited <= visited' && Spared(m0, s0, visited', now) && Standing(b, r0, j, m0, visited')
        invariant ln1 == Along(b, r0, j)
        invariant j < |r0| ==> ln1 != heads[b] && ln2 == Along(b, r0, j + 1)
        decreases |r0| - j
      {
        visited' := SweepOne(ln1, b, now, r0, j, m0, s0, visited');
        j := j + 1;
        ln1 := ln2;
        ln2 := ln1.next;
        if j < |r0| {
          Linkage(b, r0, j, m0, visited');
        }
      }
      StandsAtLast(b, r0, m0, visited');
    }

    /** The node at position j of the bucket, or the head behind the last one. */
    ghost function Along(b: nat, r0: seq<ServerNode>, j: nat): ServerNode
      requires b < |heads| && j <= |r0|
    {
      if j < |r0| then r0[j] else heads[b]
    }

    /** The node at position j is not the head, and its next link leads to the node after it. */
    lemma Linkage(b: nat, r0: seq<ServerNode>, j: nat, m0: map<int, ServerNode>, visited: set<int>)
      requires Valid() && b < SIZE && 1 <= j < |r0| && Standing(b, r0, j, m0, visited)
      ensures r0[j] != heads[b] && r0[j].next == Along(b, r0, j + 1)
    {
      var k := |rings[b]| - (|r0| - j);
      assert rings[b][k] == r0[j];
      assert j + 1 < |r0| ==> rings[b][k + 1] == r0[j + 1];
      Others(b);
      Neighbours(rings[b], k);
    }

    lemma FirstStanding(b: nat, m0: map<int, ServerNode>, visited: set<int>)
      requires b < |rings| && |rings[b]| >= 1
      ensures Standing(b, rings[b], 1, m0, visited)
    {
      assert rings[b][1..1] == [];
    }

    lemma FirstLinks(b: nat, m0: map<int, ServerNode>, visited: set<int>)
      requires Valid() && b < SIZE && |rings[b]| >= 1 && Standing(b, rings[b], 1, m0, visited)
      ensures var r0 := rings[b];
              && heads[b].next == Along(b, r0, 1)
              && (1 < |r0| ==> heads[b].next != heads[b] && heads[b].next.next == Along(b, r0, 2))
    {
      Others(b);
      Neighbours(rings[b], 0);
      if 1 < |rings[b]| {
        Linkage(b, rings[b], 1, m0, visited);
      }
      hide *;
    }

    lemma UnvisitedInBucket(b: nat, m0: map<int, ServerNode>, s0: map<int, Server>, visited: set<int>, now: int, fd: int)
      requires Valid() && Snapshot(m0, s0) && Spared(m0, s0, visited, now) && b < SIZE
      requires fd in m0 && fd >= 0 && Key(fd) == b && fd !in visited
      ensures m0[fd] in rings[b][1..]
    {
      hide Linked, Counted;
      var k := PlaceOf(servers[fd]);
      assert rings[b][1..][k - 1] == m0[fd];
    }

    lemma StandsAtFirst(b: nat, m0: map<int, ServerNode>, s0: map<int, Server>, visited: set<int>, now: int)
      requires Valid() && Snapshot(m0, s0) && Spared(m0, s0, visited, now) && b < SIZE
      ensures var r0 := rings[b];
              && |r0| >= 1 && Standing(b, r0, 1, m0, visited)
              && (forall fd <- m0 :: Key(fd) == b ==> fd in visited || m0[fd] in r0[1..])
              && heads[b].next == Along(b, r0, 1)
              && (1 < |r0| ==> heads[b].next != heads[b] && heads[b].next.next == Along(b, r0, 2))
    {
      Others(b);
      FirstStanding(b, m0, visited);
      FirstLinks(b, m0, visited);
      forall fd | fd in m0 && Key(fd) == b && fd !in visited
        ensures m0[fd] in rings[b][1..]
      {
        UnvisitedInBucket(b, m0, s0, visited, now, fd);
      }
      hide *;
    }

    lemma StandsAtLast(b: nat, r0: seq<ServerNode>, m0: map<int, ServerNode>, visited: set<int>)
      requires b < |rings| && |r0| >= 1 && Standing(b, r0, |r0|, m0, visited)
      ensures forall fd <- m0 :: m0[fd] in r0[1..] ==> fd in visited
    {
      assert r0[1..|r0|] == r0[1..];
    }

    /** poll_timer_clean_idle_fd. */
    method Sweep(now: int)
      requires Valid()
      modifies this, Nodes()
      ensures Valid()
      ensures forall fd <- old(servers) ::
                var idleTimeout, lastTime := old(servers[fd].item.idleTimeout), old(servers[fd].item.lastTime);
                fd in servers <==> idleTimeout == 0 || now - lastTime <= 1200 || !(1 <= fd <= 49999)
      ensures forall fd <- servers :: fd in old(servers) && servers[fd] == old(servers[fd]) && servers[fd].item == old(servers[fd].item)
    {
      ghost var m0 := servers;
      ghost var s0 := map fd | fd in m0 :: m0[fd].item;
      ghost var visited := {};
      var i := 0;
      while i < SIZE
        invariant 0 <= i <= SIZE && Valid() && Nodes() <= old(Nodes())
        invariant Spared(m0, s0, visited, now)
        invariant forall fd <- m0 :: fd >= 0 && (Key(fd) < i ==> fd in visited)
      {
        visited := SweepBucket(i, now, m0, s0, visited);
        i := i + 1;
      }
    }
  }

  /** Bucket key has lost node and nothing else has changed. */
  ghost predicate Shortened(rs: seq<seq<ServerNode>>, rs': seq<seq<ServerNode>>, node: ServerNode, key: nat) {
    key < |rs| && forall k :: 0 <= k < |rs[key]| && rs[key][k] == node ==> rs' == rs[key := Removed(rs[key], k)]
  }

  lemma AddedKey<K, V>(m: map<K, V>, k: K, v: V)
    requires k !in m
    ensures m[k := v].Keys == m.Keys + {k} && |m.Keys + {k}| == |m.Keys| + 1
  {
  }
}
