/** The back end's admission and result gate over the store of players:
    `/api/auth/authenticate` signs a player in (registering on first use) and
    `/api/result` records the one quiz attempt a player gets. Each handler is
    given twice: as a pure outcome over the store (the specification, about
    which the lemmas speak) and as a method of `PlayerStore` that updates the
    records field by field, as the handler does. */
module Server {
  import opened Text
  import opened Validators
  import opened Wrappers

  /** The schema's `status` enumeration. */
  datatype Status = Won | Lost

  /** A stored `Player` document (timestamps left out). */
  datatype Player = Player(nic: string, name: string, mobile: string, score: int, status: Status, played: bool)

  /** An HTTP reply: status code, message, and the player document it
      carries on success. */
  datatype Response = Response(code: int, message: string, player: Option<Player>)

  /** A reply together with the store as the handler leaves it. */
  datatype Handled = Handled(response: Response, store: seq<Player>)

  const InvalidNicMessage := "Invalid NIC format"
  const InvalidMobileMessage := "Invalid Mobile Number"
  const ConflictMessage := "NIC or Mobile already registered to a different user"
  const AlreadyPlayedMessage := "Already played!"
  const InvalidScoreMessage := "Invalid score"
  const NotFoundMessage := "Player not found"
  const AlreadyRecordedMessage := "Result already recorded"

  function Reject(code: int, message: string): Response {
    Response(code, message, None)
  }

  function Accept(p: Player): Response {
    Response(200, "", Some(p))
  }

  /** A new document: the schema's defaults are score 0, status LOST and
      played false. */
  function NewPlayer(nic: string, name: string, mobile: string): (p: Player)
    ensures p.nic == nic && p.name == name && p.mobile == mobile
    ensures p.score == 0 && p.status == Lost && !p.played
  {
    Player(nic, name, mobile, 0, Lost, false)
  }

  /** The unique indexes on `nic` and on `mobile`. */
  ghost predicate UniqueKeys(ps: seq<Player>) {
    forall i, j :: 0 <= i < j < |ps| ==> ps[i].nic != ps[j].nic && ps[i].mobile != ps[j].mobile
  }

  /** The query `{ $or: [{ nic }, { mobile }] }`. */
  function ByNicOrMobile(nic: string, mobile: string): Player -> bool {
    (p: Player) => p.nic == nic || p.mobile == mobile
  }

  /** The query `{ nic }`. */
  function ByNic(nic: string): Player -> bool {
    (p: Player) => p.nic == nic
  }

  /** `findOne`: the position of the first document in store order that
      satisfies the query, if there is one. */
  function FindFirst(ps: seq<Player>, query: Player -> bool): (r: Option<nat>)
    ensures r.Some? ==> r.value < |ps| && query(ps[r.value])
    ensures r.Some? ==> forall k :: 0 <= k < r.value ==> !query(ps[k])
    ensures r.None? ==> forall k :: 0 <= k < |ps| ==> !query(ps[k])
  {
    if ps == [] then None
    else if query(ps[0]) then Some(0)
    else match FindFirst(ps[1..], query)
      case None => None
      case Some(i) => Some(i + 1)
  }

  /** The winner rule of the result handler: only a full score of 10 wins. */
  function RecordedStatus(score: int): (st: Status)
    ensures st == Won <==> score == 10
  {
    if score == 10 then Won else Lost
  }

  /** Only the name may change, and only to a non-empty trimmed request name. */
  predicate AdmissionKeeps(before: Player, after: Player, name: string) {
    && after.nic == before.nic && after.mobile == before.mobile
    && after.score == before.score && after.status == before.status && after.played == before.played
    && (after.name == before.name || (after.name == Trim(name) && Trim(name) != ""))
  }

  /** The authenticate handler on a store `ps`, for the request body
      `{nic, name, mobile}` (`name` is "" when absent). */
  function AuthenticateOutcome(ps: seq<Player>, nic: string, name: string, mobile: string): (h: Handled)
    ensures h.response.code in {200, 400, 403, 409}
    ensures h.response.code == 400 <==> !IsValidNic(nic) || !IsValidMobile(mobile)
    ensures !IsValidNic(nic) ==> h.response == Reject(400, InvalidNicMessage)
    ensures h.response.code != 200 ==> h.store == ps && h.response.player.None?
    ensures h.response.code == 200 ==>
      && h.response.player.Some?
      && h.response.player.value.nic == nic && h.response.player.value.mobile == mobile
      && !h.response.player.value.played
      && h.response.player.value in h.store
    ensures || h.store == ps
            || h.store == ps + [NewPlayer(nic, Trim(name), mobile)]
            || (|h.store| == |ps| && exists i :: 0 <= i < |ps| && h.store == ps[i := h.store[i]] && h.response.player == Some(h.store[i]))
    ensures |h.store| >= |ps| && forall k :: 0 <= k < |ps| ==> AdmissionKeeps(ps[k], h.store[k], name)
  {
    if !IsValidNic(nic) then Handled(Reject(400, InvalidNicMessage), ps)
    else if !IsValidMobile(mobile) then Handled(Reject(400, InvalidMobileMessage), ps)
    else match FindFirst(ps, ByNicOrMobile(nic, mobile))
      case Some(i) =>
        var p := ps[i];
        if p.nic != nic || p.mobile != mobile then Handled(Reject(409, ConflictMessage), ps)
        else if p.played then Handled(Reject(403, AlreadyPlayedMessage), ps)
        else
          var updated := if Trim(name) != "" && Trim(name) != p.name then p.(name := Trim(name)) else p;
          var store := ps[i := updated];
          assert store[i] == updated;
          Handled(Accept(updated), store)
      case None =>
        var created := NewPlayer(nic, Trim(name), mobile);
        Handled(Accept(created), ps + [created])
  }

  /** The result handler on a store `ps`, for the request body `{nic, score}`. */
  function ResultOutcome(ps: seq<Player>, nic: string, score: int): (h: Handled)
    ensures h.response.code in {200, 400, 403, 404}
    ensures h.response.code == 400 <==> !IsValidNic(nic) || score < 0 || score > 10
    ensures h.response.code == 404 <==> h.response.code != 400 && forall k :: 0 <= k < |ps| ==> ps[k].nic != nic
    ensures h.response.code != 200 ==> h.store == ps && h.response.player.None?
    ensures h.response.code == 200 ==>
      && h.response.player.Some?
      && h.response.player == Some(Player(nic, h.response.player.value.name, h.response.player.value.mobile,
                                          score, RecordedStatus(score), true))
      && h.response.player.value in h.store
    ensures |h.store| == |ps|
    ensures h.store == ps || exists i :: 0 <= i < |ps| && h.store == ps[i := h.store[i]] && h.response.player == Some(h.store[i])
    ensures forall k :: 0 <= k < |ps| ==>
      || h.store[k] == ps[k]
      || (&& h.response.code == 200 && ps[k].nic == nic && !ps[k].played
          && h.store[k] == ps[k].(score := score, status := RecordedStatus(score), played := true))
  {
    if !IsValidNic(nic) then Handled(Reject(400, InvalidNicMessage), ps)
    else if score < 0 || score > 10 then Handled(Reject(400, InvalidScoreMessage), ps)
    else
      var status := RecordedStatus(score);
      match FindFirst(ps, ByNic(nic))
      case None => Handled(Reject(404, NotFoundMessage), ps)
      case Some(i) =>
        if ps[i].played then Handled(Reject(403, AlreadyRecordedMessage), ps)
        else
          var recorded := ps[i].(score := score, status := status, played := true);
          var store := ps[i := recorded];
          assert store[i] == recorded;
          Handled(Accept(recorded), store)
  }

  /** A record matched by one key and not by the other: the two keys of the
      request point at different people. */
  predicate Conflicts(p: Player, nic: string, mobile: string) {
    (p.nic == nic) != (p.mobile == mobile)
  }

  /** Authentication keeps `nic` and `mobile` unique. */
  lemma AuthenticateKeepsUnique(ps: seq<Player>, nic: string, name: string, mobile: string)
    requires UniqueKeys(ps)
    ensures UniqueKeys(AuthenticateOutcome(ps, nic, name, mobile).store)
  {
    var h := AuthenticateOutcome(ps, nic, name, mobile);
    if h.response.code == 200 && |h.store| > |ps| {
      var q := FindFirst(ps, ByNicOrMobile(nic, mobile));
      assert q.None?;
      forall k | 0 <= k < |ps| ensures ps[k].nic != nic && ps[k].mobile != mobile {
        assert !ByNicOrMobile(nic, mobile)(ps[k]);
      }
    }
  }

  /** On a store with unique keys, which record `findOne` happens to return
      does not matter: the reply is 409 exactly when some record conflicts
      with the request. */
  lemma AuthenticateConflict(ps: seq<Player>, nic: string, name: string, mobile: string)
    requires UniqueKeys(ps) && IsValidNic(nic) && IsValidMobile(mobile)
    ensures AuthenticateOutcome(ps, nic, name, mobile).response.code == 409
        <==> exists k :: 0 <= k < |ps| && Conflicts(ps[k], nic, mobile)
  {
    var h := AuthenticateOutcome(ps, nic, name, mobile);
    match FindFirst(ps, ByNicOrMobile(nic, mobile))
    case None =>
      forall k | 0 <= k < |ps| ensures !Conflicts(ps[k], nic, mobile) {
        assert !ByNicOrMobile(nic, mobile)(ps[k]);
      }
    case Some(i) =>
      if !Conflicts(ps[i], nic, mobile) {
        assert ps[i].nic == nic && ps[i].mobile == mobile;
        forall k | 0 <= k < |ps| ensures !Conflicts(ps[k], nic, mobile) {
          if k != i {
            assert ps[k].nic != nic && ps[k].mobile != mobile;
          }
        }
      }
  }

  /** On a store with unique keys, the reply is 403 exactly when the record
      with both keys of the request has already played. */
  lemma AuthenticateAlreadyPlayed(ps: seq<Player>, nic: string, name: string, mobile: string)
    requires UniqueKeys(ps) && IsValidNic(nic) && IsValidMobile(mobile)
    ensures AuthenticateOutcome(ps, nic, name, mobile).response.code == 403
        <==> exists k :: 0 <= k < |ps| && ps[k].nic == nic && ps[k].mobile == mobile && ps[k].played
  {
    match FindFirst(ps, ByNicOrMobile(nic, mobile))
    case None =>
      forall k | 0 <= k < |ps| ensures !(ps[k].nic == nic && ps[k].played) {
        assert !ByNicOrMobile(nic, mobile)(ps[k]);
      }
    case Some(i) =>
      forall k | 0 <= k < |ps| && ps[k].nic == nic && ps[k].mobile == mobile ensures k == i {
      }
  }

  /** A new record is created exactly when neither key is known, and then
      it has not played, scores 0, is LOST and has the trimmed name. */
  lemma AuthenticateCreates(ps: seq<Player>, nic: string, name: string, mobile: string)
    requires IsValidNic(nic) && IsValidMobile(mobile)
    ensures var h := AuthenticateOutcome(ps, nic, name, mobile);
      |h.store| == |ps| + 1
      <==> forall k :: 0 <= k < |ps| ==> ps[k].nic != nic && ps[k].mobile != mobile
    ensures var h := AuthenticateOutcome(ps, nic, name, mobile);
      |h.store| == |ps| + 1 ==> h.response == Accept(Player(nic, Trim(name), mobile, 0, Lost, false))
  {
    match FindFirst(ps, ByNicOrMobile(nic, mobile))
    case None =>
      forall k | 0 <= k < |ps| ensures ps[k].nic != nic && ps[k].mobile != mobile {
        assert !ByNicOrMobile(nic, mobile)(ps[k]);
      }
    case Some(i) =>
  }

  /** A returning player who has not played yet is admitted; their stored
      name becomes the trimmed request name when that is non-empty, and no
      other record changes. */
  lemma AuthenticateRenames(ps: seq<Player>, k: nat, nic: string, name: string, mobile: string)
    requires UniqueKeys(ps) && IsValidNic(nic) && IsValidMobile(mobile)
    requires k < |ps| && ps[k].nic == nic && ps[k].mobile == mobile && !ps[k].played
    ensures var h := AuthenticateOutcome(ps, nic, name, mobile);
      && h.response.code == 200 && |h.store| == |ps|
      && h.store == ps[k := ps[k].(name := if Trim(name) != "" then Trim(name) else ps[k].name)]
      && h.response.player == Some(h.store[k])
  {
    var q := FindFirst(ps, ByNicOrMobile(nic, mobile));
    assert ByNicOrMobile(nic, mobile)(ps[k]);
    assert q.value == k;
  }

  /** On a store with unique keys, a result for a stored NIC is rejected
      with 403 exactly when that player has played; otherwise it is accepted
      and only that record takes the score, its status and `played`. */
  lemma ResultAccepts(ps: seq<Player>, k: nat, nic: string, score: int)
    requires UniqueKeys(ps) && IsValidNic(nic) && 0 <= score <= 10
    requires k < |ps| && ps[k].nic == nic
    ensures var h := ResultOutcome(ps, nic, score);
      && (h.response.code == 403 <==> ps[k].played)
      && (!ps[k].played ==>
            && h.response.code == 200
            && h.store == ps[k := ps[k].(score := score, status := RecordedStatus(score), played := true)]
            && h.response.player == Some(h.store[k]))
  {
    assert ByNic(nic)(ps[k]);
    var q := FindFirst(ps, ByNic(nic));
    assert q.value == k;
  }

  /** Once the result handler has accepted a score, an immediate retry (with
      any score) is rejected with 403 and leaves the first score in place. */
  lemma {:induction false} ResultRetryRejected(ps: seq<Player>, nic: string, first: int, retry: int)
    requires ResultOutcome(ps, nic, first).response.code == 200
    requires 0 <= retry <= 10
    ensures var after := ResultOutcome(ps, nic, first).store;
      && ResultOutcome(after, nic, retry).response == Reject(403, AlreadyRecordedMessage)
      && ResultOutcome(after, nic, retry).store == after
  {
    var after := ResultOutcome(ps, nic, first).store;
    var i := FindFirst(ps, ByNic(nic)).value;
    assert after == ps[i := ps[i].(score := first, status := RecordedStatus(first), played := true)];
    FindFirstSameKeys(ps, after, ByNic(nic), i);
  }

  /** Changing fields other than the nic of one record leaves the first nic
      match in place. */
  lemma {:induction false} FindFirstSameKeys(ps: seq<Player>, qs: seq<Player>, query: Player -> bool, i: nat)
    requires |ps| == |qs| && i < |ps|
    requires FindFirst(ps, query) == Some(i) && query(qs[i])
    requires forall k :: 0 <= k < i ==> qs[k] == ps[k]
    ensures FindFirst(qs, query) == Some(i)
  {
    if i > 0 {
      assert !query(qs[0]);
      FindFirstSameKeys(ps[1..], qs[1..], query, i - 1);
    }
  }

  /** Neither handler ever turns `played` back to false, and a played
      record keeps its score and status for good. */
  lemma PlayedIsFinal(ps: seq<Player>, nic: string, name: string, mobile: string, score: int, k: nat)
    requires k < |ps| && ps[k].played
    ensures var a := AuthenticateOutcome(ps, nic, name, mobile).store;
      a[k].played && a[k].score == ps[k].score && a[k].status == ps[k].status
    ensures var r := ResultOutcome(ps, nic, score).store;
      r[k].played && r[k].score == ps[k].score && r[k].status == ps[k].status
  {
  }

  /** The store behind the handlers, one document per player; the unique
      indexes guarantee that `nic` and `mobile` each identify at most one. */
  class PlayerStore {
    var players: seq<Player>

    ghost predicate Valid()
      reads this
    {
      UniqueKeys(players)
    }

    constructor ()
      ensures Valid() && players == []
    {
      players := [];
    }

    /** POST /api/auth/authenticate. */
    method Authenticate(nic: string, name: string, mobile: string) returns (response: Response)
      requires Valid()
      modifies this
      ensures Valid()
      ensures response == AuthenticateOutcome(old(players), nic, name, mobile).response
      ensures players == AuthenticateOutcome(old(players), nic, name, mobile).store
    {
      AuthenticateKeepsUnique(players, nic, name, mobile);
      if !IsValidNic(nic) {
        return Reject(400, InvalidNicMessage);
      }
      if !IsValidMobile(mobile) {
        return Reject(400, InvalidMobileMessage);
      }
      var found := FindFirst(players, ByNicOrMobile(nic, mobile));
      if found.Some? {
        var i := found.value;
        var player := players[i];
        if player.nic != nic || player.mobile != mobile {
          return Reject(409, ConflictMessage);
        }
        if player.played {
          return Reject(403, AlreadyPlayedMessage);
        }
        if Trim(name) != "" && Trim(name) != player.name {
          player := player.(name := Trim(name));
          players := players[i := player];
        }
        response := Accept(player);
      } else {
        var player := NewPlayer(nic, Trim(name), mobile);
        players := players + [player];
        response := Accept(player);
      }
    }

    /** POST /api/result. */
    method RecordResult(nic: string, score: int) returns (response: Response)
      requires Valid()
      modifies this
      ensures Valid()
      ensures response == ResultOutcome(old(players), nic, score).response
      ensures players == ResultOutcome(old(players), nic, score).store
    {
      if !IsValidNic(nic) {
        return Reject(400, InvalidNicMessage);
      }
      if score < 0 || score > 10 {
        return Reject(400, InvalidScoreMessage);
      }
      var status := RecordedStatus(score);
      var found := FindFirst(players, ByNic(nic));
      if found.None? {
        return Reject(404, NotFoundMessage);
      }
      var i := found.value;
      if players[i].played {
        return Reject(403, AlreadyRecordedMessage);
      }
      players := players[i := players[i].(score := score)];
      players := players[i := players[i].(status := status)];
      players := players[i := players[i].(played := true)];
      response := Accept(players[i]);
    }
  }
}
