/** The peer lists of bar_network.go: three lists, a capped whitelist, and peer selection. */
module Peers {
  import opened Base

  type PeerId = string

  datatype Status = Greylist | Whitelist | Banned

  datatype PeerInfo = PeerInfo(id: PeerId, status: Status, pomScore: int)

  type PeerMap = map<PeerId, PeerInfo>

  datatype Config = Config(incomingConnections: int, pomThreshold: int, pomBanThreshold: int)

  datatype Lists = Lists(whitelist: PeerMap, greylist: PeerMap, banned: PeerMap)

  /** Go's `int` addition, which wraps at 64 bits. */
  function PlusInt(a: int, b: int): int {
    (a + b + 0x8000_0000_0000_0000) % 0x1_0000_0000_0000_0000 - 0x8000_0000_0000_0000
  }

  function AddPeer(l: Lists, id: PeerId): Lists {
    if id in l.whitelist || id in l.greylist || id in l.banned then l
    else l.(greylist := l.greylist[id := PeerInfo(id, Greylist, 0)])
  }

  /** From the greylist only, and only while the whitelist has room. */
  function Promote(l: Lists, c: Config, id: PeerId): Lists {
    if id !in l.greylist || |l.whitelist| >= c.incomingConnections then l
    else l.(greylist := l.greylist - {id}, whitelist := l.whitelist[id := l.greylist[id].(status := Whitelist)])
  }

  function Demote(l: Lists, id: PeerId): Lists {
    if id !in l.whitelist then l
    else l.(whitelist := l.whitelist - {id}, greylist := l.greylist[id := l.whitelist[id].(status := Greylist)])
  }

  function Ban(l: Lists, id: PeerId): Lists {
    if id in l.whitelist then
      l.(whitelist := l.whitelist - {id}, banned := l.banned[id := l.whitelist[id].(status := Banned)])
    else if id in l.greylist then
      l.(greylist := l.greylist - {id}, banned := l.banned[id := l.greylist[id].(status := Banned)])
    else l
  }

  /** A score, and what it triggers: a whitelisted peer is at most demoted, a greylisted one
      banned. */
  function UpdateScore(l: Lists, c: Config, id: PeerId, increment: int): Lists {
    if id in l.whitelist then
      var info := l.whitelist[id].(pomScore := PlusInt(l.whitelist[id].pomScore, increment));
      var l' := l.(whitelist := l.whitelist[id := info]);
      if info.pomScore >= c.pomThreshold then Demote(l', id) else l'
    else if id in l.greylist then
      var info := l.greylist[id].(pomScore := PlusInt(l.greylist[id].pomScore, increment));
      var l' := l.(greylist := l.greylist[id := info]);
      if info.pomScore >= c.pomBanThreshold then Ban(l', id) else l'
    else l
  }

  datatype Op =
    | DoAdd(id: PeerId)
    | DoPromote(id: PeerId)
    | DoDemote(id: PeerId)
    | DoBan(id: PeerId)
    | DoScore(id: PeerId, increment: int)

  function Apply(l: Lists, c: Config, op: Op): Lists {
    match op
    case DoAdd(id) => AddPeer(l, id)
    case DoPromote(id) => Promote(l, c, id)
    case DoDemote(id) => Demote(l, id)
    case DoBan(id) => Ban(l, id)
    case DoScore(id, increment) => UpdateScore(l, c, id, increment)
  }

  function ApplyAll(l: Lists, c: Config, ops: seq<Op>): Lists {
    if ops == [] then l else Apply(ApplyAll(l, c, ops[..|ops| - 1]), c, ops[|ops| - 1])
  }

  ghost predicate AllAre(m: PeerMap, status: Status) {
    forall id :: id in m ==> m[id].id == id && m[id].status == status
  }

  /** The lists are disjoint, each entry carries its list's status, and the whitelist keeps
      to its cap. */
  ghost predicate Inv(l: Lists, c: Config) {
    && l.whitelist.Keys !! l.greylist.Keys
    && l.whitelist.Keys !! l.banned.Keys
    && l.greylist.Keys !! l.banned.Keys
    && AllAre(l.whitelist, Whitelist) && AllAre(l.greylist, Greylist) && AllAre(l.banned, Banned)
    && (l.whitelist != map[] ==> |l.whitelist| <= c.incomingConnections)
  }

  lemma AddKey(m: PeerMap, id: PeerId, info: PeerInfo)
    ensures |m[id := info]| == |m| + if id in m then 0 else 1
  {
    assert m[id := info].Keys == m.Keys + {id};
    assert |m.Keys| == |m| && |m[id := info].Keys| == |m[id := info]|;
  }

  lemma RemoveKey(m: PeerMap, id: PeerId)
    ensures |m - {id}| == |m| - if id in m then 1 else 0
  {
    assert (m - {id}).Keys == m.Keys - {id};
    assert |m.Keys| == |m| && |(m - {id}).Keys| == |m - {id}|;
  }

  lemma AllAreRemove(m: PeerMap, s: Status, id: PeerId)
    requires AllAre(m, s)
    ensures AllAre(m - {id}, s) && (id in m ==> m[id].id == id)
  {
  }

  lemma AllAreUpdate(m: PeerMap, s: Status, id: PeerId)
    requires AllAre(m, s)
    ensures forall info: PeerInfo :: info.id == id && info.status == s ==> AllAre(m[id := info], s)
  {
  }

  lemma DemoteInv(l: Lists, c: Config, id: PeerId)
    requires Inv(l, c)
    ensures Inv(Demote(l, id), c)
  {
    RemoveKey(l.whitelist, id);
  }

  lemma BanInv(l: Lists, c: Config, id: PeerId)
    requires Inv(l, c)
    ensures Inv(Ban(l, id), c)
  {
    RemoveKey(l.whitelist, id);
    hide AllAre;
    AllAreUpdate(l.banned, Banned, id);
    AllAreRemove(l.whitelist, Whitelist, id);
    AllAreRemove(l.greylist, Greylist, id);
  }

  lemma PromoteInv(l: Lists, c: Config, id: PeerId)
    requires Inv(l, c)
    ensures Inv(Promote(l, c, id), c)
  {
    if id in l.greylist {
      AddKey(l.whitelist, id, l.greylist[id].(status := Whitelist));
    }
  }

  lemma ScoreInv(l: Lists, c: Config, id: PeerId, increment: int)
    requires Inv(l, c)
    ensures Inv(UpdateScore(l, c, id, increment), c)
  {
    hide PlusInt, Demote, Ban;
    if id in l.whitelist {
      var info := l.whitelist[id].(pomScore := PlusInt(l.whitelist[id].pomScore, increment));
      var l' := l.(whitelist := l.whitelist[id := info]);
      AddKey(l.whitelist, id, info);
      assert l'.whitelist.Keys == l.whitelist.Keys;
      DemoteInv(l', c, id);
    } else if id in l.greylist {
      var info := l.greylist[id].(pomScore := PlusInt(l.greylist[id].pomScore, increment));
      var l' := l.(greylist := l.greylist[id := info]);
      assert l'.greylist.Keys == l.greylist.Keys;
      BanInv(l', c, id);
    }
  }

  lemma StepInv(l: Lists, c: Config, op: Op)
    requires Inv(l, c)
    ensures Inv(Apply(l, c, op), c)
  {
    hide Promote, Demote, Ban, UpdateScore;
    match op
    case DoAdd(id) =>
    case DoPromote(id) => PromoteInv(l, c, id);
    case DoDemote(id) => DemoteInv(l, c, id);
    case DoBan(id) => BanInv(l, c, id);
    case DoScore(id, increment) => ScoreInv(l, c, id, increment);
  }

  /** The status that the lists give a peer. */
  ghost function StatusOf(l: Lists, id: PeerId): set<Status> {
    (if id in l.whitelist then {Whitelist} else {}) + (if id in l.greylist then {Greylist} else {})
    + if id in l.banned then {Banned} else {}
  }

  ghost function Known(l: Lists): set<PeerId> {
    l.whitelist.Keys + l.greylist.Keys + l.banned.Keys
  }

  /** Which peers a step on `id` may move, and that it loses nobody. */
  ghost predicate Moves(l: Lists, l': Lists, id: PeerId) {
    Known(l') == Known(l) && forall other :: other != id ==> StatusOf(l', other) == StatusOf(l, other)
  }

  lemma SameElsewhere(l: Lists, l': Lists, id: PeerId)
    requires forall other :: other != id ==>
               && (other in l'.whitelist <==> other in l.whitelist)
               && (other in l'.greylist <==> other in l.greylist)
               && (other in l'.banned <==> other in l.banned)
    requires id in Known(l) <==> id in Known(l')
    ensures Moves(l, l', id)
  {
    forall other ensures other in Known(l') <==> other in Known(l) {
      assert other == id || other != id;
    }
  }

  lemma DemoteMoves(l: Lists, id: PeerId)
    ensures Moves(l, Demote(l, id), id)
  {
    hide Moves;
    SameElsewhere(l, Demote(l, id), id);
  }

  lemma BanMoves(l: Lists, id: PeerId)
    ensures Moves(l, Ban(l, id), id)
  {
    hide Moves;
    SameElsewhere(l, Ban(l, id), id);
  }

  lemma PromoteMoves(l: Lists, c: Config, id: PeerId)
    ensures Moves(l, Promote(l, c, id), id)
  {
    hide Moves;
    SameElsewhere(l, Promote(l, c, id), id);
  }

  lemma ScoreMoves(l: Lists, c: Config, id: PeerId, increment: int)
    ensures Moves(l, UpdateScore(l, c, id, increment), id)
  {
    hide PlusInt, Demote, Ban;
    if id in l.whitelist {
      var info := l.whitelist[id].(pomScore := PlusInt(l.whitelist[id].pomScore, increment));
      var l' := l.(whitelist := l.whitelist[id := info]);
      assert l'.whitelist.Keys == l.whitelist.Keys;
      DemoteMoves(l', id);
    } else if id in l.greylist {
      var info := l.greylist[id].(pomScore := PlusInt(l.greylist[id].pomScore, increment));
      var l' := l.(greylist := l.greylist[id := info]);
      assert l'.greylist.Keys == l.greylist.Keys;
      BanMoves(l', id);
    }
  }

  /** No operation loses a peer, only adding one makes one known, and no operation on one
      peer changes the status of another. */
  lemma PeersConserved(l: Lists, c: Config, op: Op)
    ensures Known(Apply(l, c, op)) == Known(l) + if op.DoAdd? then {op.id} else {}
    ensures forall other :: other != op.id ==> StatusOf(Apply(l, c, op), other) == StatusOf(l, other)
  {
    hide Promote, Demote, Ban, UpdateScore;
    match op
    case DoAdd(id) =>
    case DoPromote(id) => PromoteMoves(l, c, id);
    case DoDemote(id) => DemoteMoves(l, id);
    case DoBan(id) => BanMoves(l, id);
    case DoScore(id, increment) => ScoreMoves(l, c, id, increment);
  }

  /** The score stored for a peer, whatever list holds it; nothing stored counts as 0. */
  ghost function ScoreOf(l: Lists, id: PeerId): int {
    if id in l.whitelist then l.whitelist[id].pomScore
    else if id in l.greylist then l.greylist[id].pomScore
    else if id in l.banned then l.banned[id].pomScore
    else 0
  }

  /** The list that holds a peer. */
  ghost function Standing(l: Lists, id: PeerId): Option<Status> {
    if id in l.whitelist then Some(Whitelist)
    else if id in l.greylist then Some(Greylist)
    else if id in l.banned then Some(Banned)
    else None
  }

  lemma BanStanding(l: Lists, id: PeerId)
    requires Apart(l)
    ensures Standing(Ban(l, id), id) == if Standing(l, id).None? then None else Some(Banned)
  {
  }

  lemma DemoteStanding(l: Lists, id: PeerId)
    requires Apart(l)
    ensures Standing(Demote(l, id), id) ==
            if Standing(l, id) == Some(Whitelist) then Some(Greylist) else Standing(l, id)
  {
  }

  lemma ScoreStanding(l: Lists, c: Config, id: PeerId, increment: int)
    requires Apart(l)
    ensures var score := PlusInt(ScoreOf(l, id), increment);
            Standing(UpdateScore(l, c, id, increment), id) ==
            if Standing(l, id) == Some(Whitelist) && score >= c.pomThreshold then Some(Greylist)
            else if Standing(l, id) == Some(Greylist) && score >= c.pomBanThreshold then Some(Banned)
            else Standing(l, id)
  {
    hide PlusInt, Demote, Ban;
    if id in l.whitelist {
      var info := l.whitelist[id].(pomScore := PlusInt(l.whitelist[id].pomScore, increment));
      var l' := l.(whitelist := l.whitelist[id := info]);
      assert l'.whitelist.Keys == l.whitelist.Keys;
      DemoteStanding(l', id);
    } else if id in l.greylist {
      var info := l.greylist[id].(pomScore := PlusInt(l.greylist[id].pomScore, increment));
      var l' := l.(greylist := l.greylist[id := info]);
      assert l'.greylist.Keys == l.greylist.Keys;
      BanStanding(l', id);
    }
  }

  /** Where each operation puts its peer: a new one on the greylist; up if there is room;
      down; banned from either list; and a score moves a peer down by one list at most, and
      exactly when it reaches that list's threshold. */
  lemma StandingAfter(l: Lists, c: Config, op: Op)
    requires Inv(l, c)
    ensures var now, next := Standing(l, op.id), Standing(Apply(l, c, op), op.id);
            match op
            case DoAdd(_) => next == if now.None? then Some(Greylist) else now
            case DoPromote(_) =>
              next == if now == Some(Greylist) && |l.whitelist| < c.incomingConnections then Some(Whitelist) else now
            case DoDemote(_) => next == if now == Some(Whitelist) then Some(Greylist) else now
            case DoBan(_) => next == if now.None? then None else Some(Banned)
            case DoScore(id, increment) =>
              var score := PlusInt(ScoreOf(l, id), increment);
              next == if now == Some(Whitelist) && score >= c.pomThreshold then Some(Greylist)
                      else if now == Some(Greylist) && score >= c.pomBanThreshold then Some(Banned)
                      else now
  {
    hide PlusInt, AllAre, Demote, Ban, UpdateScore;
    match op
    case DoAdd(_) =>
    case DoPromote(_) =>
    case DoDemote(id) => DemoteStanding(l, id);
    case DoBan(id) => BanStanding(l, id);
    case DoScore(id, increment) => ScoreStanding(l, c, id, increment);
  }

  /** An operation counts for a peer's score only while the peer is on the whitelist or the
      greylist. */
  ghost predicate Scores(l: Lists, op: Op, id: PeerId) {
    op.DoScore? && op.id == id && (id in l.whitelist || id in l.greylist)
  }

  ghost function Given(l: Lists, op: Op, id: PeerId): int {
    if Scores(l, op, id) then op.increment else 0
  }

  ghost function TotalGiven(l: Lists, c: Config, ops: seq<Op>, id: PeerId): int {
    if ops == [] then 0
    else
      var init := ops[..|ops| - 1];
      TotalGiven(l, c, init, id) + Given(ApplyAll(l, c, init), ops[|ops| - 1], id)
  }

  ghost predicate Apart(l: Lists) {
    l.whitelist.Keys !! l.greylist.Keys && l.whitelist.Keys !! l.banned.Keys && l.greylist.Keys !! l.banned.Keys
  }

  lemma DemoteKeepsScore(l: Lists, moved: PeerId, id: PeerId)
    requires Apart(l)
    ensures ScoreOf(Demote(l, moved), id) == ScoreOf(l, id)
  {
  }

  lemma BanKeepsScore(l: Lists, moved: PeerId, id: PeerId)
    requires Apart(l)
    ensures ScoreOf(Ban(l, moved), id) == ScoreOf(l, id)
  {
  }

  lemma PromoteKeepsScore(l: Lists, c: Config, moved: PeerId, id: PeerId)
    requires Apart(l)
    ensures ScoreOf(Promote(l, c, moved), id) == ScoreOf(l, id)
  {
  }

  lemma UpdateStep(l: Lists, c: Config, scored: PeerId, increment: int, id: PeerId)
    requires Apart(l)
    ensures ScoreOf(UpdateScore(l, c, scored, increment), id) ==
            if scored == id && (id in l.whitelist || id in l.greylist) then PlusInt(ScoreOf(l, id), increment)
            else ScoreOf(l, id)
  {
    hide PlusInt, Demote, Ban;
    if scored in l.whitelist {
      var info := l.whitelist[scored].(pomScore := PlusInt(l.whitelist[scored].pomScore, increment));
      var l' := l.(whitelist := l.whitelist[scored := info]);
      assert l'.whitelist.Keys == l.whitelist.Keys;
      DemoteKeepsScore(l', scored, id);
    } else if scored in l.greylist {
      var info := l.greylist[scored].(pomScore := PlusInt(l.greylist[scored].pomScore, increment));
      var l' := l.(greylist := l.greylist[scored := info]);
      assert l'.greylist.Keys == l.greylist.Keys;
      BanKeepsScore(l', scored, id);
    }
  }

  lemma ScoreStep(l: Lists, c: Config, op: Op, id: PeerId)
    requires Inv(l, c)
    ensures ScoreOf(Apply(l, c, op), id) ==
            if Scores(l, op, id) then PlusInt(ScoreOf(l, id), op.increment) else ScoreOf(l, id)
  {
    hide PlusInt, AllAre, Promote, Demote, Ban, UpdateScore;
    match op
    case DoAdd(_) =>
    case DoPromote(moved) => PromoteKeepsScore(l, c, moved, id);
    case DoDemote(moved) => DemoteKeepsScore(l, moved, id);
    case DoBan(moved) => BanKeepsScore(l, moved, id);
    case DoScore(scored, increment) => UpdateStep(l, c, scored, increment, id);
  }

  ghost predicate InRange(x: int) {
    -0x8000_0000_0000_0000 <= x < 0x8000_0000_0000_0000
  }

  lemma PlusIntLaws(x: int, a: int, b: int)
    ensures PlusInt(PlusInt(x, a), b) == PlusInt(x, a + b)
    ensures InRange(PlusInt(x, a)) && (InRange(x) ==> PlusInt(x, 0) == x)
  {
  }

  /** Over every sequence of operations a peer's score is the sum of the increments it was
      given, wrapped to 64 bits: moving between lists keeps it, banning freezes it. */
  lemma {:induction false} ScoreIsSum(l: Lists, c: Config, ops: seq<Op>, id: PeerId)
    requires Inv(l, c) && InRange(ScoreOf(l, id))
    ensures ScoreOf(ApplyAll(l, c, ops), id) == PlusInt(ScoreOf(l, id), TotalGiven(l, c, ops, id))
  {
    hide Apply, PlusInt, Scores, ScoreOf, InRange;
    var x := ScoreOf(l, id);
    if ops == [] {
      PlusIntLaws(x, 0, 0);
    } else {
      var init, op := ops[..|ops| - 1], ops[|ops| - 1];
      ScoreIsSum(l, c, init, id);
      ReachableInv(l, c, init);
      var m := ApplyAll(l, c, init);
      ScoreStep(m, c, op, id);
      PlusIntLaws(x, TotalGiven(l, c, init, id), Given(m, op, id));
    }
  }

  /** In every state that any sequence of operations reaches. */
  lemma {:induction false} ReachableInv(l: Lists, c: Config, ops: seq<Op>)
    requires Inv(l, c)
    ensures Inv(ApplyAll(l, c, ops), c)
  {
    hide Apply;
    if ops != [] {
      ReachableInv(l, c, ops[..|ops| - 1]);
      StepInv(ApplyAll(l, c, ops[..|ops| - 1]), c, ops[|ops| - 1]);
    }
  }

  lemma BannedStep(l: Lists, c: Config, op: Op, id: PeerId)
    requires Inv(l, c) && id in l.banned
    ensures id in Apply(l, c, op).banned && Apply(l, c, op).banned[id] == l.banned[id]
  {
  }

  /** A banned peer stays banned, with its record as it was, and is on no other list. */
  lemma {:induction false} BannedForever(l: Lists, c: Config, ops: seq<Op>, id: PeerId)
    requires Inv(l, c) && id in l.banned
    ensures var l' := ApplyAll(l, c, ops);
            id in l'.banned && l'.banned[id] == l.banned[id] && id !in l'.whitelist && id !in l'.greylist
  {
    hide Apply;
    if ops != [] {
      var init := ops[..|ops| - 1];
      BannedForever(l, c, init, id);
      ReachableInv(l, c, init);
      BannedStep(ApplyAll(l, c, init), c, ops[|ops| - 1], id);
    }
    ReachableInv(l, c, ops);
  }

  class BARNetwork {
    const config: Config
    var whitelist: PeerMap
    var greylist: PeerMap
    var banned: PeerMap

    ghost function View(): Lists
      reads this
    {
      Lists(whitelist, greylist, banned)
    }

    ghost predicate Valid()
      reads this
    {
      Inv(View(), config)
    }

    constructor (config: Config)
      ensures Valid() && this.config == config && View() == Lists(map[], map[], map[])
    {
      this.config := config;
      whitelist, greylist, banned := map[], map[], map[];
    }

    method Add(id: PeerId)
      requires Valid()
      modifies this
      ensures Valid() && View() == AddPeer(old(View()), id)
    {
      if id in whitelist || id in greylist || id in banned {
        return;
      }
      greylist := greylist[id := PeerInfo(id, Greylist, 0)];
    }

    method PromoteToWhitelist(id: PeerId) returns (ok: bool)
      requires Valid()
      modifies this
      ensures Valid() && View() == Promote(old(View()), config, id)
      ensures ok <==> id in old(greylist) && |old(whitelist)| < config.incomingConnections
      ensures ok ==> id in whitelist && id !in greylist
    {
      PromoteInv(View(), config, id);
      if id !in greylist || |whitelist| >= config.incomingConnections {
        return false;
      }
      var info := greylist[id];
      greylist := greylist - {id};
      whitelist := whitelist[id := info.(status := Whitelist)];
      return true;
    }

    method DemoteToGreylist(id: PeerId) returns (ok: bool)
      requires Valid()
      modifies this
      ensures Valid() && View() == Demote(old(View()), id) && (ok <==> id in old(whitelist))
    {
      DemoteInv(View(), config, id);
      if id !in whitelist {
        return false;
      }
      var info := whitelist[id];
      whitelist := whitelist - {id};
      greylist := greylist[id := info.(status := Greylist)];
      return true;
    }

    method BanPeer(id: PeerId)
      requires Valid()
      modifies this
      ensures Valid() && View() == Ban(old(View()), id)
    {
      BanInv(View(), config, id);
      var info;
      if id in whitelist {
        info := whitelist[id];
        whitelist := whitelist - {id};
      } else if id in greylist {
        info := greylist[id];
        greylist := greylist - {id};
      } else {
        return;
      }
      banned := banned[id := info.(status := Banned)];
    }

    method UpdatePOMScore(id: PeerId, increment: int)
      requires Valid()
      modifies this
      ensures Valid() && View() == UpdateScore(old(View()), config, id, increment)
    {
      ScoreInv(View(), config, id, increment);
      hide PlusInt;
      if id in whitelist {
        var info := whitelist[id].(pomScore := PlusInt(whitelist[id].pomScore, increment));
        SetScore(id, info);
        if info.status.Whitelist? && info.pomScore >= config.pomThreshold {
          var _ := DemoteToGreylist(id);
        }
      } else if id in greylist {
        var info := greylist[id].(pomScore := PlusInt(greylist[id].pomScore, increment));
        SetScore(id, info);
        if info.status.Greylist? && info.pomScore >= config.pomBanThreshold {
          BanPeer(id);
        }
      }
    }

    /** The entry changed through the pointer that its list holds. */
    method SetScore(id: PeerId, info: PeerInfo)
      requires Valid()
      requires (id in whitelist && info == whitelist[id].(pomScore := info.pomScore))
            || (id in greylist && info == greylist[id].(pomScore := info.pomScore))
      modifies this
      ensures Valid()
      ensures View() == if id in old(whitelist) then old(View()).(whitelist := old(whitelist)[id := info])
                        else old(View()).(greylist := old(greylist)[id := info])
    {
      if id in whitelist {
        AddKey(whitelist, id, info);
        whitelist := whitelist[id := info];
        assert whitelist.Keys == old(whitelist).Keys;
      } else {
        greylist := greylist[id := info];
        assert greylist.Keys == old(greylist).Keys;
      }
    }

    /** The one list that holds a peer, as the peer's own status says. */
    function GetPeerStatus(id: PeerId): (s: (Status, bool))
      requires Valid()
      reads this
      ensures s.1 <==> id in whitelist || id in greylist || id in banned
      ensures s == (Whitelist, true) <==> id in whitelist
      ensures s == (Greylist, true) <==> id in greylist
      ensures s == (Banned, true) <==> id in banned
    {
      if id in whitelist then (whitelist[id].status, true)
      else if id in greylist then (greylist[id].status, true)
      else if id in banned then (banned[id].status, true)
      else (Greylist, false)
    }

    method EligiblePeers() returns (peers: seq<PeerInfo>)
      requires Valid()
      ensures forall p :: p in peers <==> p.id in whitelist && whitelist[p.id] == p
      ensures forall i, j :: 0 <= i < j < |peers| ==> peers[i].id != peers[j].id
      ensures |peers| == |whitelist|
    {
      peers := [];
      var rest := whitelist.Keys;
      while rest != {}
        invariant rest <= whitelist.Keys && |peers| + |rest| == |whitelist.Keys|
        invariant forall p :: p in peers <==> p.id in whitelist.Keys - rest && whitelist[p.id] == p
        invariant forall i, j :: 0 <= i < j < |peers| ==> peers[i].id != peers[j].id
        decreases |rest|
      {
        var id :| id in rest;
        forall i | 0 <= i < |peers| ensures peers[i].id != id { assert peers[i] in peers; }
        rest := rest - {id};
        peers := peers + [whitelist[id]];
      }
      assert |whitelist.Keys| == |whitelist|;
    }

    /** For any random numbers: the probing ends, and every whitelisted peer comes out exactly
        once. `random` stands for the hashes of round seed and iteration. (The modulus is the
        list length cut to 32 bits, which must not be zero.) */
    method FindNodes(random: nat -> nat) returns (selected: seq<PeerId>)
      requires Valid()
      requires whitelist == map[] || |whitelist| % 0x1_0000_0000 != 0
      ensures forall id :: id in selected <==> id in whitelist
      ensures forall i, j :: 0 <= i < j < |selected| ==> selected[i] != selected[j]
    {
      hide Inv;
      assert whitelist != map[] ==> |whitelist| <= config.incomingConnections by { CapHolds(); }
      var eligible := EligiblePeers();
      if eligible == [] {
        assert whitelist == map[];
        return [];
      }
      ghost var order;
      selected, order := Select(eligible, config.incomingConnections, random);
      OwnIds();
      PickedAll(whitelist, eligible, selected, order);
    }

    lemma CapHolds()
      requires Valid()
      ensures whitelist != map[] ==> |whitelist| <= config.incomingConnections
    {
    }

    lemma OwnIds()
      requires Valid()
      ensures forall id :: id in whitelist ==> whitelist[id].id == id
    {
    }
  }

  ghost function Used(order: seq<nat>): set<nat> {
    set u | u in order
  }

  /** The `k`-th pick is the first free index from its random start on. */
  ghost predicate PickedAt(order: seq<nat>, n: nat, random: nat -> nat, k: nat)
    requires k < |order| && n % 0x1_0000_0000 != 0
  {
    FirstFree(Used(order[..k]), n, random(k) % (n % 0x1_0000_0000), order[k])
  }

  lemma PickedNext(order: seq<nat>, n: nat, random: nat -> nat, index: nat)
    requires n % 0x1_0000_0000 != 0
    requires forall k :: 0 <= k < |order| ==> PickedAt(order, n, random, k)
    requires FirstFree(Used(order), n, random(|order|) % (n % 0x1_0000_0000), index)
    ensures forall k :: 0 <= k <= |order| ==> PickedAt(order + [index], n, random, k)
  {
    hide FirstFree;
    forall k | 0 <= k <= |order| ensures PickedAt(order + [index], n, random, k) {
      assert (order + [index])[..k] == order[..k];
      if k == |order| {
        assert order[..k] == order;
      } else {
        assert PickedAt(order, n, random, k);
      }
    }
  }

  /** Different indices so far, each the first free one from its random start on. */
  ghost predicate Picks(order: seq<nat>, n: nat, random: nat -> nat)
    requires n % 0x1_0000_0000 != 0
  {
    && |order| == |Used(order)|
    && (forall k :: 0 <= k < |order| ==> order[k] < n)
    && (forall j, k :: 0 <= j < k < |order| ==> order[j] != order[k])
    && (forall k :: 0 <= k < |order| ==> PickedAt(order, n, random, k))
  }

  lemma PicksMore(order: seq<nat>, n: nat, random: nat -> nat, index: nat)
    requires n % 0x1_0000_0000 != 0 && Picks(order, n, random)
    requires index < n && index !in Used(order)
    requires FirstFree(Used(order), n, random(|order|) % (n % 0x1_0000_0000), index)
    ensures Picks(order + [index], n, random) && Used(order + [index]) == Used(order) + {index}
  {
    hide PickedAt, FirstFree;
    PickedNext(order, n, random, index);
    assert Used(order + [index]) == Used(order) + {index};
    forall k | 0 <= k < |order| ensures order[k] != index { assert order[k] in Used(order); }
  }

  lemma PicksAll(order: seq<nat>, n: nat, random: nat -> nat)
    requires n % 0x1_0000_0000 != 0 && Picks(order, n, random) && |order| == n
    ensures forall u :: 0 <= u < n ==> u in order
  {
    hide PickedAt;
    AllUsed(Used(order), n);
    forall u | 0 <= u < n ensures u in order {
      assert u in Used(order);
    }
  }

  /** Picks by random start and linear probing, until all are picked. `order` lists the picked
      indices: every index once. */
  method Select(eligible: seq<PeerInfo>, cap: int, random: nat -> nat)
    returns (selected: seq<PeerId>, ghost order: seq<nat>)
    requires |eligible| <= cap && |eligible| % 0x1_0000_0000 != 0
    ensures |selected| == |order| == |eligible|
    ensures forall k :: 0 <= k < |order| ==> order[k] < |eligible| && selected[k] == eligible[order[k]].id
    ensures forall j, k :: 0 <= j < k < |order| ==> order[j] != order[k]
    ensures forall u :: 0 <= u < |eligible| ==> u in order
    ensures forall k :: 0 <= k < |order| ==> PickedAt(order, |eligible|, random, k)
  {
    hide PickedAt, FirstFree;
    var n := |eligible|;
    selected, order := [], [];
    var used: set<nat> := {};
    var i := 0;
    while i < cap && i < n
      invariant 0 <= i <= n && i == |order| == |selected|
      invariant Picks(order, n, random) && used == Used(order)
      invariant forall k :: 0 <= k < i ==> selected[k] == eligible[order[k]].id
    {
      var index := Probe(used, n, random(i) % (n % 0x1_0000_0000));
      PicksMore(order, n, random, index);
      used := used + {index};
      selected := selected + [eligible[index].id];
      order := order + [index];
      i := i + 1;
    }
    PicksAll(order, n, random);
  }

  /** Picking every index of a listing once picks every listed peer once. */
  lemma PickedAll(m: PeerMap, eligible: seq<PeerInfo>, selected: seq<PeerId>, order: seq<nat>)
    requires forall id :: id in m ==> m[id].id == id
    requires forall p :: p in eligible <==> p.id in m && m[p.id] == p
    requires forall i, j :: 0 <= i < j < |eligible| ==> eligible[i].id != eligible[j].id
    requires |selected| == |order|
    requires forall k :: 0 <= k < |order| ==> order[k] < |eligible| && selected[k] == eligible[order[k]].id
    requires forall j, k :: 0 <= j < k < |order| ==> order[j] != order[k]
    requires forall u :: 0 <= u < |eligible| ==> u in order
    ensures forall id :: id in selected <==> id in m
    ensures forall i, j :: 0 <= i < j < |selected| ==> selected[i] != selected[j]
  {
    forall id | id in m ensures id in selected {
      assert m[id] in eligible;
      var u :| 0 <= u < |eligible| && eligible[u] == m[id];
      assert u in order;
      var k :| 0 <= k < |order| && order[k] == u;
      assert selected[k] == id;
    }
    forall k | 0 <= k < |selected| ensures selected[k] in m {
      assert eligible[order[k]] in eligible;
    }
    forall i, j | 0 <= i < j < |selected| ensures selected[i] != selected[j] {
      assert order[i] < order[j] || order[j] < order[i];
    }
  }

  lemma {:induction false} AllUsed(used: set<nat>, n: nat)
    requires |used| == n && forall u :: u in used ==> u < n
    ensures forall u :: 0 <= u < n ==> u in used
  {
    if n > 0 {
      if n - 1 in used {
        AllUsed(used - {n - 1}, n - 1);
      } else {
        BoundedSet(used, n - 1);
      }
    }
  }

  lemma {:induction false} BoundedSet(used: set<nat>, n: nat)
    requires forall u :: u in used ==> u < n
    ensures |used| <= n
  {
    if n > 0 {
      BoundedSet(used - {n - 1}, n - 1);
    } else {
      assert used == {};
    }
  }

  /** A free index exists as long as fewer than all are used. */
  lemma {:induction false} FreeIndex(used: set<nat>, n: nat) returns (f: nat)
    requires |used| < n
    ensures f < n && f !in used
  {
    if n - 1 !in used {
      f := n - 1;
    } else {
      f := FreeIndex(used - {n - 1}, n - 1);
    }
  }

  lemma StepAround(r: nat, n: nat)
    requires r < n
    ensures (r + 1) % n == if r + 1 == n then 0 else r + 1
  {
  }

  /** Going around from `start`, index `r` is the first that is not used. */
  ghost predicate FirstFree(used: set<nat>, n: nat, start: nat, r: nat)
    requires start < n
  {
    r < n && r !in used && if start <= r then forall u :: start <= u < r ==> u in used
                           else forall u :: 0 <= u < n && (u < r || start <= u) ==> u in used
  }

  /** Linear probing: the first free index from `index` on, around the end. */
  method Probe(used: set<nat>, n: nat, index: nat) returns (r: nat)
    requires index < n && |used| < n
    ensures r < n && r !in used && FirstFree(used, n, index, r)
  {
    r := index;
    ghost var free := FreeIndex(used, n);
    ghost var around := false;
    while r in used
      invariant r < n
      invariant if around then forall u :: 0 <= u < n && (u < r || index <= u) ==> u in used
                else index <= r && forall u :: index <= u < r ==> u in used
      invariant around ==> r < index
      decreases if free >= r then free - r else free - r + n
    {
      StepAround(r, n);
      if r + 1 == n {
        around := true;
      }
      r := (r + 1) % n;
    }
  }
}
