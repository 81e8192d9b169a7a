/**
 * The player store behind the service: the Spring Data repository, modelled
 * abstractly as a finite map from id to row plus the two id counters the
 * database uses for Player and PlayerProfile rows. A player's
 * profile lives inside its row, so removing the row removes the profile.
 */
module Repository {
  import opened Results
  import opened Players
  import opened Failures

  datatype Store = Store(rows: map<int, Player>, nextId: int, nextProfileId: int)

  /**
   * Every row is filed under its own id, a positive id the counter has
   * already handed out; every profile id was handed out too, and no profile
   * belongs to two players.
   */
  ghost predicate Valid(s: Store) {
    && 1 <= s.nextId
    && 1 <= s.nextProfileId
    && (forall k :: k in s.rows ==> 1 <= k < s.nextId && s.rows[k].id == k)
    && (forall k :: k in s.rows && s.rows[k].playerProfile.Some? ==>
          1 <= s.rows[k].playerProfile.value.id < s.nextProfileId)
    && (forall j, k ::
          (j in s.rows && k in s.rows && j != k &&
           s.rows[j].playerProfile.Some? && s.rows[k].playerProfile.Some?) ==>
          s.rows[j].playerProfile.value.id != s.rows[k].playerProfile.value.id)
  }

  /** findById: the row with that id, if any; in a valid store it carries that id. */
  function FindById(s: Store, id: int): (r: Option<Player>)
    ensures r.Some? <==> id in s.rows
    ensures Valid(s) && r.Some? ==> r.value.id == id
  {
    if id in s.rows then Some(s.rows[id]) else None
  }

  predicate Ascending(ks: seq<int>) {
    forall i, j :: 0 <= i < j < |ks| ==> ks[i] < ks[j]
  }

  lemma {:induction false} LeastExists(keys: set<int>)
    requires keys != {}
    ensures exists m :: m in keys && forall k :: k in keys ==> m <= k
    decreases |keys|
  {
    assert (forall k :: k !in keys) ==> keys == {};
    var x :| x in keys;
    var rest := keys - {x};
    assert keys == rest + {x};
    if rest == {} {
      assert forall k :: k in keys ==> k == x;
    } else {
      LeastExists(rest);
      var m :| m in rest && forall k :: k in rest ==> m <= k;
      var least := if x < m then x else m;
      assert least in keys && forall k :: k in keys ==> least <= k;
    }
  }

  /** The smallest element of a non-empty set of ids. */
  function Least(keys: set<int>): (m: int)
    requires keys != {}
    ensures m in keys && forall k :: k in keys ==> m <= k
  {
    LeastExists(keys);
    var m :| m in keys && forall k :: k in keys ==> m <= k;
    m
  }

  /** The ids of a set, each once, in ascending order. */
  function SortedKeys(keys: set<int>): (ks: seq<int>)
    ensures Ascending(ks)
    ensures |ks| == |keys|
    ensures forall k :: k in keys <==> k in ks
    decreases |keys|
  {
    if keys == {} then []
    else
      var m := Least(keys);
      [m] + SortedKeys(keys - {m})
  }

  predicate IdsAscending(ps: seq<Player>) {
    forall i, j :: 0 <= i < j < |ps| ==> ps[i].id < ps[j].id
  }

  /** The rows filed under ks, in the order of ks. */
  function RowsAt(rows: map<int, Player>, ks: seq<int>): (ps: seq<Player>)
    requires forall i :: 0 <= i < |ks| ==> ks[i] in rows
    ensures |ps| == |ks|
    ensures forall i :: 0 <= i < |ks| ==> ps[i] == rows[ks[i]]
  {
    if ks == [] then [] else [rows[ks[0]]] + RowsAt(rows, ks[1..])
  }

  /**
   * findAllOrderedById: every stored player exactly once, by ascending id.
   */
  function FindAllOrderedById(s: Store): (ps: seq<Player>)
    requires Valid(s)
    ensures IdsAscending(ps)
    ensures |ps| == |s.rows|
    ensures forall i :: 0 <= i < |ps| ==> ps[i].id in s.rows && s.rows[ps[i].id] == ps[i]
    ensures forall id :: id in s.rows ==> s.rows[id] in ps
  {
    var ks := SortedKeys(s.rows.Keys);
    var ps := RowsAt(s.rows, ks);
    ListingFacts(s, ks, ps);
    ps
  }

  lemma ListingFacts(s: Store, ks: seq<int>, ps: seq<Player>)
    requires Valid(s)
    requires Ascending(ks) && forall k :: k in s.rows <==> k in ks
    requires |ps| == |ks| && forall i :: 0 <= i < |ks| ==> ks[i] in s.rows && ps[i] == s.rows[ks[i]]
    ensures IdsAscending(ps)
    ensures forall i :: 0 <= i < |ps| ==> ps[i].id in s.rows && s.rows[ps[i].id] == ps[i]
    ensures forall id :: id in s.rows ==> s.rows[id] in ps
  {
    assert forall i :: 0 <= i < |ps| ==> ps[i].id == ks[i];
    forall id | id in s.rows
      ensures s.rows[id] in ps
    {
      var i :| 0 <= i < |ks| && ks[i] == id;
      assert ps[i] == s.rows[id];
    }
  }

  /**
   * The profile p carries may be written with p's row: there is none, or it
   * is the one that row already owns. Any other profile would be a second
   * owner of a profile row (the one-to-one join column is unique) or an
   * unknown one.
   */
  predicate KeepsOwnProfile(current: Player, p: Player) {
    p.playerProfile.None? ||
    (current.playerProfile.Some? && current.playerProfile.value.id == p.playerProfile.value.id)
  }

  /**
   * save on a player whose id is 0 (a new entity): the row gets the next id,
   * and a new profile (id 0) the next profile id, in one write. A profile
   * that already has an id is a detached entity the store refuses.
   */
  function Insert(s: Store, p: Player): (out: (Outcome<Player>, Store))
    requires Valid(s)
    ensures Valid(out.1)
    ensures out.0.Ok? <==> (p.playerProfile.None? || p.playerProfile.value.id == 0)
    ensures out.0.Ok? ==>
      var q := out.0.value;
      && q.id >= 1 && q.id !in s.rows
      && out.1.rows == s.rows[q.id := q]
      && SameDetails(q, p) && SameProfileContent(q, p)
    ensures out.0.Err? ==> out == (Err(StoreFailure), s)
  {
    match p.playerProfile
    case None =>
      var q := p.(id := s.nextId);
      (Ok(q), s.(rows := s.rows[q.id := q], nextId := s.nextId + 1))
    case Some(profile) =>
      if profile.id != 0 then (Err(StoreFailure), s)
      else
        var q := p.(id := s.nextId, playerProfile := Some(profile.(id := s.nextProfileId)));
        (Ok(q), Store(s.rows[q.id := q], s.nextId + 1, s.nextProfileId + 1))
  }

  /**
   * save: a player with id 0 is inserted; any other is merged into the row
   * with its id, which must exist and may not take over another row's
   * profile. A refused save writes nothing.
   */
  function Save(s: Store, p: Player): (out: (Outcome<Player>, Store))
    requires Valid(s)
    ensures Valid(out.1)
    ensures out.0.Ok? ==> out.0.value.id in out.1.rows && out.1.rows == s.rows[out.0.value.id := out.0.value]
    ensures out.0.Err? ==> out == (Err(StoreFailure), s)
    ensures p.id != 0 ==> (out.0.Ok? <==> p.id in s.rows && KeepsOwnProfile(s.rows[p.id], p))
    ensures p.id != 0 && out.0.Ok? ==> out == (Ok(p), s.(rows := s.rows[p.id := p]))
  {
    if p.id == 0 then Insert(s, p)
    else if p.id in s.rows && KeepsOwnProfile(s.rows[p.id], p) then (Ok(p), s.(rows := s.rows[p.id := p]))
    else (Err(StoreFailure), s)
  }

  /** delete: the row and the profile it owns are gone; no other row changes. */
  function Delete(s: Store, id: int): (t: Store)
    requires Valid(s)
    ensures Valid(t)
    ensures id !in t.rows
    ensures t.rows.Keys == s.rows.Keys - {id}
    ensures forall k :: k in t.rows ==> t.rows[k] == s.rows[k]
  {
    s.(rows := s.rows - {id})
  }

  /**
   * updateTitles: the direct one-column update. It writes the titles of the
   * row with that id and nothing else; when there is no such row it affects
   * no row and reports nothing.
   */
  function UpdateTitles(s: Store, id: int, titles: int): (t: Store)
    requires Valid(s)
    ensures Valid(t)
    ensures t.rows.Keys == s.rows.Keys
    ensures id in s.rows ==> t.rows[id] == s.rows[id].(titles := titles)
    ensures forall k :: k in s.rows && k != id ==> t.rows[k] == s.rows[k]
    ensures id !in s.rows ==> t == s
  {
    if id in s.rows then s.(rows := s.rows[id := s.rows[id].(titles := titles)]) else s
  }

  /** A lookup by id finds a player exactly when the listing holds one with that id. */
  lemma FindByIdAgreesWithListing(s: Store, id: int)
    requires Valid(s)
    ensures var ps := FindAllOrderedById(s);
      && (FindById(s, id).Some? <==> exists i :: 0 <= i < |ps| && ps[i].id == id)
      && (FindById(s, id).Some? ==> FindById(s, id).value in ps)
  {
    var ps := FindAllOrderedById(s);
    if id in s.rows {
      var i :| 0 <= i < |ps| && ps[i] == s.rows[id];
      assert ps[i].id == id;
    }
  }

  /** The entity the store hands out for a row: a new object holding that row. */
  method Load(row: Player) returns (e: PlayerEntity)
    ensures fresh(e) && e.Value() == row
  {
    e := new PlayerEntity();
    e.SetId(row.id);
    e.SetName(row.name);
    e.SetNationality(row.nationality);
    e.SetBirthDate(row.birthDate);
    e.SetTitles(row.titles);
    e.SetPlayerProfile(row.playerProfile);
  }
}
