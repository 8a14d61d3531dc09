/** Where a car goes next, and which car goes. */
module ControllerRouting {
  import opened Text
  import opened Requests
  import opened Peers
  import opened Sorting
  import opened Assigner
  import opened ControllerModel
  import opened ControllerSafety
  import opened ControllerStops

  // ----- the direction of the next move -----

  predicate Elsewhere(s: Ctl, a: map<RequestKey, int>, floor: int) {
    0 <= floor < s.cfg.floors && floor != s.car.floor && CanServe(s, floor, a)
  }

  /** A floor the car will go to: the search looks one shaft and a floor around it. */
  predicate InReach(s: Ctl, a: map<RequestKey, int>, floor: int) {
    Elsewhere(s, a, floor) && Abs(s.car.floor - floor) <= s.cfg.floors + 1
  }

  /** From inside the shaft, or next to it, every floor is in reach. */
  lemma AllInReach(s: Ctl, a: map<RequestKey, int>, floor: int)
    requires -1 <= s.car.floor <= s.cfg.floors
    ensures InReach(s, a, floor) <==> Elsewhere(s, a, floor)
  {
  }

  predicate Nearer(s: Ctl, f: int, g: int) {
    var df, dg := Abs(s.car.floor - f), Abs(s.car.floor - g);
    df < dg || (df == dg && f <= g)
  }

  lemma {:induction false} SearchFinds(s: Ctl, a: map<RequestKey, int>, upTo: int)
    requires upTo <= s.cfg.floors
    ensures var best := Search(s, a, upTo);
            if best.floor < 0 then
              best == Candidate(-1, s.cfg.floors + 1) && forall f :: 0 <= f < upTo ==> !InReach(s, a, f)
            else
              && best.floor < upTo && best.dist == Abs(s.car.floor - best.floor) && InReach(s, a, best.floor)
              && forall f :: 0 <= f < upTo && InReach(s, a, f) ==> Nearer(s, best.floor, f)
  {
    if upTo > 0 {
      SearchFinds(s, a, upTo - 1);
    }
  }

  /** The walk up and the walk down see what is in reach that way, from any floor from
      which they start. */
  lemma WalksSee(s: Ctl, a: map<RequestKey, int>, f: int)
    requires InReach(s, a, f)
    ensures f > s.car.floor >= -1 ==> AnyAbove(s, s.car.floor, a)
    ensures f < s.car.floor <= s.cfg.floors ==> AnyBelow(s, s.car.floor, a)
  {
  }

  lemma WalksReach(s: Ctl, a: map<RequestKey, int>)
    ensures AnyAbove(s, s.car.floor, a) ==> exists f :: InReach(s, a, f) && DirTo(s.car.floor, f) == UP
    ensures AnyBelow(s, s.car.floor, a) ==> exists f :: InReach(s, a, f) && DirTo(s.car.floor, f) == DOWN
  {
    var floor := s.car.floor;
    if AnyAbove(s, floor, a) {
      var f :| floor < f < s.cfg.floors && CanServe(s, f, a) && 0 <= f;
      assert InReach(s, a, f);
    }
    if AnyBelow(s, floor, a) {
      var f :| 0 <= f < floor && CanServe(s, f, a) && f < s.cfg.floors;
      assert InReach(s, a, f);
    }
  }

  /** The car stays exactly when no other floor in reach can be served; otherwise a floor
      to serve lies strictly the way it goes, it keeps its direction while there is one
      that way, and from rest it makes for the nearest, the lower of two equally near. */
  lemma NextDirServes(s: Ctl, a: map<RequestKey, int>)
    ensures NextDir(s, a) == STOP <==> forall f :: !InReach(s, a, f)
    ensures NextDir(s, a) != STOP ==> exists f :: InReach(s, a, f) && DirTo(s.car.floor, f) == NextDir(s, a)
    ensures s.travelDir != STOP && (exists f :: InReach(s, a, f) && DirTo(s.car.floor, f) == s.travelDir) ==>
              NextDir(s, a) == s.travelDir
    ensures s.travelDir == STOP && NextDir(s, a) != STOP ==>
              exists f :: InReach(s, a, f) && DirTo(s.car.floor, f) == NextDir(s, a) &&
                forall g :: InReach(s, a, g) ==> Nearer(s, f, g)
  {
    SearchFinds(s, a, s.cfg.floors);
    WalksReach(s, a);
    var best := Search(s, a, s.cfg.floors).floor;
    forall f | InReach(s, a, f)
      ensures f > s.car.floor >= -1 ==> AnyAbove(s, s.car.floor, a)
      ensures f < s.car.floor <= s.cfg.floors ==> AnyBelow(s, s.car.floor, a)
    {
      WalksSee(s, a, f);
    }
    if best >= 0 {
      assert InReach(s, a, best);
    }
  }

  /** Every assigned call is an active hall call, and goes to the own car or to a peer
      heard of within the timeout. */
  lemma OnlyLiveAssigned(s: Ctl, now: int, key: RequestKey)
    requires IdentityInv(s)
    ensures var a := Assignments(s.(peers := Expired(s.peers, s.cfg.peerTimeout, now)));
            && (key in a <==> key.kind == HALL && Active(s.rep.cells, key))
            && (key in a && a[key] != s.cfg.id ==> a[key] in s.peers && now - s.peers[a[key]].seen <= s.cfg.peerTimeout)
  {
    var t := s.(peers := Expired(s.peers, s.cfg.peerTimeout, now));
    var live := Live(t.peers, t.car);
    assert t.car in live;
    if key in Assignments(t) {
      var w := WinnerState(live, key);
      if w != t.car {
        var id :| id in t.peers && t.peers[id].state == w;
      }
    }
  }

  // ----- agreement between nodes -----

  /** Nodes that hold the same table and know each other's current soft state. */
  ghost predicate InAgreement(nodes: map<int, Ctl>, cells: Cells) {
    && (forall n :: n in nodes ==> nodes[n].cfg.id == n && IdentityInv(nodes[n]) && nodes[n].rep.cells == cells)
    && (forall n :: n in nodes ==> nodes[n].peers.Keys == nodes.Keys - {n})
    && (forall n, m :: n in nodes && m in nodes[n].peers && m in nodes ==> nodes[n].peers[m].state == nodes[m].car)
  }

  ghost function Cars(nodes: map<int, Ctl>): set<SoftState> {
    set n | n in nodes :: nodes[n].car
  }

  lemma CarIsSeen(nodes: map<int, Ctl>, cells: Cells, n: int, c: SoftState)
    requires InAgreement(nodes, cells) && n in nodes && c in Cars(nodes)
    ensures c in Live(nodes[n].peers, nodes[n].car)
  {
    var m :| m in nodes && nodes[m].car == c;
    if m != n {
      assert m in nodes[n].peers;
    }
  }

  lemma SeenIsCar(nodes: map<int, Ctl>, cells: Cells, n: int, c: SoftState)
    requires InAgreement(nodes, cells) && n in nodes && c in Live(nodes[n].peers, nodes[n].car)
    ensures c in Cars(nodes)
  {
    if c != nodes[n].car {
      var m :| m in nodes[n].peers && nodes[n].peers[m].state == c;
      assert m in nodes;
    }
  }

  lemma SameView(nodes: map<int, Ctl>, cells: Cells, n: int)
    requires InAgreement(nodes, cells) && n in nodes
    ensures Live(nodes[n].peers, nodes[n].car) == Cars(nodes)
  {
    var live := Live(nodes[n].peers, nodes[n].car);
    forall c
      ensures c in live <==> c in Cars(nodes)
    {
      if c in Cars(nodes) {
        CarIsSeen(nodes, cells, n, c);
      }
      if c in live {
        SeenIsCar(nodes, cells, n, c);
      }
    }
  }

  ghost predicate Takes(nodes: map<int, Ctl>, n: int, floor: int, dir: Direction) {
    n in nodes && Hall(nodes[n], floor, dir, Assignments(nodes[n]))
  }

  /** Every active hall call is taken by exactly one node: the one whose car comes
      first by cost and then by id. */
  lemma ExactlyOneTakes(nodes: map<int, Ctl>, cells: Cells, floor: int, dir: Direction)
    requires InAgreement(nodes, cells) && nodes != map[] && Active(cells, HallKey(floor, dir))
    ensures exists w :: Takes(nodes, w, floor, dir) &&
              (forall n :: Takes(nodes, n, floor, dir) ==> n == w) &&
              Best(Cars(nodes), HallKey(floor, dir), nodes[w].car)
  {
    var key := HallKey(floor, dir);
    var some := AnElement(nodes.Keys);
    assert nodes[some].car in Cars(nodes);
    var best := WinnerState(Cars(nodes), key);
    var w :| w in nodes && nodes[w].car == best;
    assert w == Winner(Cars(nodes), key);
    forall n | n in nodes
      ensures Takes(nodes, n, floor, dir) <==> n == w
    {
      HallMeans(nodes[n], floor, dir);
      SameView(nodes, cells, n);
    }
  }
}
