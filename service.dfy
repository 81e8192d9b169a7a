/**
 * PlayerService: each operation looks the player up, changes a loaded entity
 * or the store, and saves. The functions state what each operation does to
 * the store; the class's methods do it step by step and are proved to agree.
 */
module Service {
  import opened Results
  import opened Players
  import opened Failures
  import opened Repository
  import opened Patching

  /**
   * addPlayer: a new record with the input's name, nationality, birth date,
   * titles and profile, filed under an id not used before; any id the client
   * sent is dropped. Only a profile that already carries an id is refused.
   */
  function Added(s: Store, p: Player): (out: (Outcome<Player>, Store))
    requires Valid(s)
    ensures Valid(out.1)
    ensures out.0.Ok? <==> (p.playerProfile.None? || p.playerProfile.value.id == 0)
    ensures out.0.Ok? ==>
      var q := out.0.value;
      && q.id >= 1 && q.id !in s.rows
      && out.1.rows == s.rows[q.id := q]
      && SameDetails(q, p) && SameProfileContent(q, p)
    ensures out.0.Err? ==> out == (Err(StoreFailure), s)
  {
    Save(s, Player(0, p.name, p.nationality, p.birthDate, p.titles, p.playerProfile))
  }

  /**
   * updatePlayer: for a stored id, exactly name, nationality, birthDate and
   * titles are taken from the input; the id and the profile stay, and no
   * other row changes. For an absent id: not found, nothing written.
   */
  function Updated(s: Store, id: int, p: Player): (out: (Outcome<Player>, Store))
    requires Valid(s)
    ensures Valid(out.1)
    ensures id !in s.rows ==> out == (Err(PlayerNotFound(NotFoundMessage(id))), s)
    ensures id in s.rows ==>
      && out.0.Ok?
      && out.0.value.id == id
      && SameDetails(out.0.value, p)
      && out.0.value.playerProfile == s.rows[id].playerProfile
      && out.1 == s.(rows := s.rows[id := out.0.value])
  {
    match FindById(s, id)
    case None => (Err(PlayerNotFound(NotFoundMessage(id))), s)
    case Some(current) =>
      Save(s, current.(name := p.name, nationality := p.nationality, birthDate := p.birthDate, titles := p.titles))
  }

  /** The patch leaves the id alone, or sets it to the id it already has. */
  predicate KeepsId(patch: map<string, PatchValue>, id: int) {
    "id" !in patch || (patch["id"].JsonInt? && patch["id"].i == id)
  }

  /**
   * patch: for a stored id, the entries are stored into the loaded record in
   * the map's iteration order and the record is saved. A rejected entry
   * raises before the save, so nothing is written; an accepted patch that
   * keeps the id writes Patched into that row and nothing else. A patch that
   * moves the record to another id never changes the row it was loaded from.
   */
  function PatchApplied(s: Store, id: int, patch: map<string, PatchValue>, order: seq<string>)
    : (out: (Outcome<Player>, Store))
    requires Valid(s)
    requires Enumerates(order, patch)
    ensures Valid(out.1)
    ensures id !in s.rows ==> out == (Err(PlayerNotFound(NotFoundMessage(id))), s)
    ensures id in s.rows && !Accepted(patch) ==>
      && out.1 == s
      && out.0.Err?
      && (out.0.error.NoSuchField? || out.0.error.FieldTypeMismatch?)
      && out.0.error.name in patch
      && Rejected(patch, out.0.error.name)
    ensures id in s.rows && Accepted(patch) && KeepsId(patch, id) ==>
      out == (Ok(Patched(s.rows[id], patch)), s.(rows := s.rows[id := Patched(s.rows[id], patch)]))
    ensures id in s.rows && !KeepsId(patch, id) ==> id in out.1.rows && out.1.rows[id] == s.rows[id]
  {
    match FindById(s, id)
    case None => (Err(PlayerNotFound(NotFoundMessage(id))), s)
    case Some(current) =>
      PatchLoopMeetsPatched(current, patch, order);
      match ApplyInOrder(current, patch, order)
      case Err(e) => (Err(e), s)
      case Ok(q) => Save(s, q)
  }

  /**
   * deletePlayer: for a stored id, that row (and the profile it owns) is
   * removed, every other row is kept, and the confirmation names the id.
   * For an absent id: not found, nothing removed. Either way the id is
   * absent afterwards.
   */
  function Deleted(s: Store, id: int): (out: (Outcome<string>, Store))
    requires Valid(s)
    ensures Valid(out.1)
    ensures id !in s.rows ==> out == (Err(PlayerNotFound(NotFoundMessage(id))), s)
    ensures id in s.rows ==> out.0 == Ok(DeletedMessage(id))
    ensures out.1.rows.Keys == s.rows.Keys - {id}
    ensures forall k :: k in out.1.rows ==> out.1.rows[k] == s.rows[k]
    ensures FindById(out.1, id) == None
  {
    match FindById(s, id)
    case None => (Err(PlayerNotFound(NotFoundMessage(id))), s)
    case Some(current) => (Ok(DeletedMessage(id)), Delete(s, current.id))
  }

  /** The service, holding the store it was given (the injected repository). */
  class PlayerService {
    var store: Store

    constructor (store: Store)
      requires Valid(store)
      ensures this.store == store
    {
      this.store := store;
    }

    /** getAllPlayers: every stored player once, in ascending id order. */
    method GetAllPlayers() returns (players: seq<Player>)
      requires Valid(store)
      ensures IdsAscending(players)
      ensures forall i :: 0 <= i < |players| ==> players[i].id in store.rows && store.rows[players[i].id] == players[i]
      ensures forall id :: id in store.rows ==> store.rows[id] in players
    {
      players := FindAllOrderedById(store);
    }

    /** getPlayer: the stored record, or not found; the store is only read. */
    method GetPlayer(id: int) returns (r: Outcome<Player>)
      requires Valid(store)
      ensures id in store.rows ==> r == Ok(store.rows[id])
      ensures id !in store.rows ==> r == Err(PlayerNotFound(NotFoundMessage(id)))
    {
      var found := FindById(store, id);
      if found.Some? {
        r := Ok(found.value);
      } else {
        r := Err(PlayerNotFound(NotFoundMessage(id)));
      }
    }

    method AddPlayer(p: Player) returns (r: Outcome<Player>)
      requires Valid(store)
      modifies this
      ensures (r, store) == Added(old(store), p)
    {
      var player := new PlayerEntity.WithDetails(p.name, p.nationality, p.birthDate, p.titles);
      if p.playerProfile.Some? {
        player.SetPlayerProfile(p.playerProfile);
      }
      var saved := Save(store, player.Value());
      r, store := saved.0, saved.1;
    }

    method UpdatePlayer(id: int, p: Player) returns (r: Outcome<Player>)
      requires Valid(store)
      modifies this
      ensures (r, store) == Updated(old(store), id, p)
    {
      var found := FindById(store, id);
      if found.None? {
        r := Err(PlayerNotFound(NotFoundMessage(id)));
        return;
      }
      var player := Load(found.value);
      player.SetName(p.name);
      player.SetNationality(p.nationality);
      player.SetBirthDate(p.birthDate);
      player.SetTitles(p.titles);
      var saved := Save(store, player.Value());
      r, store := saved.0, saved.1;
    }

    /** patch; order is the order in which the request's map yields its keys. */
    method Patch(id: int, patch: map<string, PatchValue>, order: seq<string>) returns (r: Outcome<Player>)
      requires Valid(store)
      requires Enumerates(order, patch)
      modifies this
      ensures (r, store) == PatchApplied(old(store), id, patch, order)
    {
      var found := FindById(store, id);
      if found.None? {
        r := Err(PlayerNotFound(NotFoundMessage(id)));
        return;
      }
      var player := Load(found.value);
      var i := 0;
      while i < |order|
        invariant 0 <= i <= |order|
        invariant store == old(store)
        invariant ApplyInOrder(found.value, patch, order) == ApplyInOrder(player.Value(), patch, order[i..])
      {
        var key := order[i];
        assert order[i..][0] == key && order[i..][1..] == order[i + 1..];
        var field := FieldNamed(key);
        if field.None? {
          r := Err(NoSuchField(key));
          return;
        }
        if !Assignable(field.value, patch[key]) {
          r := Err(FieldTypeMismatch(key));
          return;
        }
        SetField(player, field.value, patch[key]);
        i := i + 1;
      }
      var saved := Save(store, player.Value());
      r, store := saved.0, saved.1;
    }

    /** updateTitles: the titles-only write, with no existence check. */
    method UpdateTitles(id: int, titles: int)
      requires Valid(store)
      modifies this
      ensures store == Repository.UpdateTitles(old(store), id, titles)
    {
      store := Repository.UpdateTitles(store, id, titles);
    }

    method DeletePlayer(id: int) returns (r: Outcome<string>)
      requires Valid(store)
      modifies this
      ensures (r, store) == Deleted(old(store), id)
    {
      var found := FindById(store, id);
      if found.None? {
        r := Err(PlayerNotFound(NotFoundMessage(id)));
        return;
      }
      store := Delete(store, found.value.id);
      r := Ok(DeletedMessage(id));
    }
  }

  /** Applying the same full update twice leaves the same store and result as applying it once. */
  lemma UpdateIsIdempotent(s: Store, id: int, p: Player)
    requires Valid(s)
    ensures Updated(Updated(s, id, p).1, id, p) == Updated(s, id, p)
  {
    var once := Updated(s, id, p);
    if id in s.rows {
      var twice := Updated(once.1, id, p);
      var q, q' := once.0.value, twice.0.value;
      assert once.1.rows[id] == q;
      assert q'.playerProfile == q.playerProfile;
      assert q' == Player(q.id, q.name, q.nationality, q.birthDate, q.titles, q.playerProfile);
      assert once.1.rows[id := q'] == once.1.rows;
    }
  }

  /** A record added and then looked up comes back with the input's content under its new id. */
  lemma AddThenGet(s: Store, p: Player)
    requires Valid(s)
    requires p.playerProfile.None? || p.playerProfile.value.id == 0
    ensures var out := Added(s, p);
      && out.0.Ok?
      && FindById(out.1, out.0.value.id) == Some(out.0.value)
      && SameDetails(out.0.value, p) && SameProfileContent(out.0.value, p)
  {
  }

  /** The client's id plays no part in an add. */
  lemma AddIgnoresClientId(s: Store, p: Player, clientId: int)
    requires Valid(s)
    ensures Added(s, p.(id := clientId)) == Added(s, p)
  {
  }

  /** An empty patch on a stored id returns the record as stored and leaves the store as it was. */
  lemma EmptyPatchLeavesStore(s: Store, id: int)
    requires Valid(s) && id in s.rows
    ensures PatchApplied(s, id, map[], []) == (Ok(s.rows[id]), s)
  {
    EmptyPatchChangesNothing(s.rows[id]);
    assert s.rows[id := s.rows[id]] == s.rows;
  }

  /**
   * For an absent id, getPlayer, updatePlayer, patch and deletePlayer all
   * fail with the same not-found error and write nothing, whereas
   * updateTitles reports nothing and writes nothing.
   */
  lemma AbsentIdIsNotFound(s: Store, id: int, p: Player, patch: map<string, PatchValue>, order: seq<string>, titles: int)
    requires Valid(s) && id !in s.rows
    requires Enumerates(order, patch)
    ensures FindById(s, id) == None
    ensures Updated(s, id, p) == (Err(PlayerNotFound(NotFoundMessage(id))), s)
    ensures PatchApplied(s, id, patch, order) == (Err(PlayerNotFound(NotFoundMessage(id))), s)
    ensures Deleted(s, id) == (Err(PlayerNotFound(NotFoundMessage(id))), s)
    ensures Repository.UpdateTitles(s, id, titles) == s
  {
  }
}
