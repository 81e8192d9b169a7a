/**
 * Partial update of a Player from a decoded JSON object: each key is looked
 * up as a field of Player and the value stored into it, as the reflective
 * loop of PlayerService.patch does, here over a closed set of fields.
 */
module Patching {
  import opened Results
  import opened Players
  import opened Failures

  /** The values of a Java int. */
  type Int32 = i: int | -0x8000_0000 <= i < 0x8000_0000

  /**
   * A value of the decoded request body: null, a string, a number that fits
   * an int (the decoder gives an Integer), or anything else (boolean, decimal,
   * a whole number too large for an int, which decodes as a Long, nested
   * object, array). A date arrives as a string and a profile as a nested object.
   */
  datatype PatchValue = JsonNull | JsonString(s: string) | JsonInt(i: Int32) | JsonOther

  /** The declared fields of Player. */
  datatype Field = Id | Name | Nationality | BirthDate | Titles | PlayerProfile

  function FieldName(f: Field): string {
    match f
    case Id => "id"
    case Name => "name"
    case Nationality => "nationality"
    case BirthDate => "birthDate"
    case Titles => "titles"
    case PlayerProfile => "playerProfile"
  }

  /** The field a key names, found by exact name; None when Player has no such field. */
  function FieldNamed(key: string): (f: Option<Field>)
    ensures f.Some? ==> FieldName(f.value) == key
    ensures f.None? ==> forall g :: FieldName(g) != key
  {
    if key == "id" then Some(Id)
    else if key == "name" then Some(Name)
    else if key == "nationality" then Some(Nationality)
    else if key == "birthDate" then Some(BirthDate)
    else if key == "titles" then Some(Titles)
    else if key == "playerProfile" then Some(PlayerProfile)
    else None
  }

  /** Each field is found under its own name, so no two fields share a name. */
  lemma FieldNameRoundTrip(f: Field)
    ensures FieldNamed(FieldName(f)) == Some(f)
  {
  }

  /**
   * Whether reflection can store v into f: an int field takes an Integer
   * (never null), a String field a string or null, and the Date and
   * PlayerProfile fields nothing but null.
   */
  predicate Assignable(f: Field, v: PatchValue)
    ensures v.JsonOther? ==> !Assignable(f, v)
    ensures v.JsonNull? ==> (Assignable(f, v) <==> f != Id && f != Titles)
    ensures v.JsonInt? ==> (Assignable(f, v) <==> f == Id || f == Titles)
    ensures v.JsonString? ==> (Assignable(f, v) <==> f == Name || f == Nationality)
  {
    match f
    case Id => v.JsonInt?
    case Titles => v.JsonInt?
    case Name => v.JsonNull? || v.JsonString?
    case Nationality => v.JsonNull? || v.JsonString?
    case BirthDate => v.JsonNull?
    case PlayerProfile => v.JsonNull?
  }

  /** The String a string or null value stands for. */
  function StringOf(v: PatchValue): Option<string>
    requires v.JsonNull? || v.JsonString?
  {
    if v.JsonNull? then None else Some(v.s)
  }

  /** Field f of p holds what v stands for. */
  predicate Holds(p: Player, f: Field, v: PatchValue) {
    match f
    case Id => v.JsonInt? && p.id == v.i
    case Titles => v.JsonInt? && p.titles == v.i
    case Name => (v.JsonNull? && p.name.None?) || (v.JsonString? && p.name == Some(v.s))
    case Nationality => (v.JsonNull? && p.nationality.None?) || (v.JsonString? && p.nationality == Some(v.s))
    case BirthDate => v.JsonNull? && p.birthDate.None?
    case PlayerProfile => v.JsonNull? && p.playerProfile.None?
  }

  /** Field f has the same value in p and q. */
  predicate SameField(p: Player, q: Player, f: Field) {
    match f
    case Id => p.id == q.id
    case Name => p.name == q.name
    case Nationality => p.nationality == q.nationality
    case BirthDate => p.birthDate == q.birthDate
    case Titles => p.titles == q.titles
    case PlayerProfile => p.playerProfile == q.playerProfile
  }

  /**
   * p with v stored into field f: the field then holds v, every other field
   * keeps its value, and storing what the field already holds changes nothing.
   */
  function AssignValue(p: Player, f: Field, v: PatchValue): (r: Player)
    requires Assignable(f, v)
    ensures Holds(r, f, v)
    ensures forall g :: g != f ==> SameField(r, p, g)
    ensures Holds(p, f, v) ==> r == p
  {
    match f
    case Id => p.(id := v.i)
    case Name => p.(name := StringOf(v))
    case Nationality => p.(nationality := StringOf(v))
    case BirthDate => p.(birthDate := None)
    case Titles => p.(titles := v.i)
    case PlayerProfile => p.(playerProfile := None)
  }

  /** The error the entry under key raises: its key names no field, or its value does not fit. */
  predicate Rejected(patch: map<string, PatchValue>, key: string)
    requires key in patch
  {
    FieldNamed(key).None? || !Assignable(FieldNamed(key).value, patch[key])
  }

  function Rejection(patch: map<string, PatchValue>, key: string): Failure
    requires key in patch
  {
    if FieldNamed(key).None? then NoSuchField(key) else FieldTypeMismatch(key)
  }

  /** Every entry of the patch names a field and fits it. */
  predicate Accepted(patch: map<string, PatchValue>) {
    forall key :: key in patch ==> !Rejected(patch, key)
  }

  /**
   * The intended result of an accepted patch: each field named in it takes
   * the value given, every other field keeps its value.
   */
  function Patched(p: Player, patch: map<string, PatchValue>): Player
    requires Accepted(patch)
  {
    Player(
      if "id" in patch then patch["id"].i else p.id,
      if "name" in patch then StringOf(patch["name"]) else p.name,
      if "nationality" in patch then StringOf(patch["nationality"]) else p.nationality,
      if "birthDate" in patch then None else p.birthDate,
      if "titles" in patch then patch["titles"].i else p.titles,
      if "playerProfile" in patch then None else p.playerProfile)
  }

  /**
   * The patch loop: the entries in the order the map yields them, each
   * stored into p in turn, stopping at the first entry that raises. It fails
   * exactly when some entry is rejected, and then with the rejection of the
   * first such entry.
   */
  function ApplyInOrder(p: Player, patch: map<string, PatchValue>, order: seq<string>): (r: Outcome<Player>)
    requires forall i :: 0 <= i < |order| ==> order[i] in patch
    ensures r.Err? <==> exists i :: 0 <= i < |order| && Rejected(patch, order[i])
    ensures r.Err? ==> exists i ::
      && 0 <= i < |order| && Rejected(patch, order[i]) && r.error == Rejection(patch, order[i])
      && (forall k :: 0 <= k < i ==> !Rejected(patch, order[k]))
    decreases |order|
  {
    if order == [] then Ok(p)
    else
      var key := order[0];
      match FieldNamed(key)
      case None => Err(NoSuchField(key))
      case Some(f) =>
        if Assignable(f, patch[key]) then ApplyInOrder(AssignValue(p, f, patch[key]), patch, order[1..])
        else Err(FieldTypeMismatch(key))
  }

  predicate Distinct(order: seq<string>) {
    forall i, j :: 0 <= i < j < |order| ==> order[i] != order[j]
  }

  /** order lists every key of the patch exactly once: an iteration order of the map. */
  predicate Enumerates(order: seq<string>, patch: map<string, PatchValue>) {
    && (forall i :: 0 <= i < |order| ==> order[i] in patch)
    && (forall key :: key in patch ==> key in order)
    && Distinct(order)
  }

  /** The entries of patch whose keys occur in order. */
  function Restrict(patch: map<string, PatchValue>, order: seq<string>): map<string, PatchValue> {
    map key | key in patch && key in order :: patch[key]
  }

  /** Storing one more field, not named by the rest of the patch, commutes with the rest. */
  lemma PatchedStep(p: Player, sub: map<string, PatchValue>, key: string, f: Field, v: PatchValue)
    requires FieldNamed(key) == Some(f) && Assignable(f, v)
    requires key !in sub && Accepted(sub)
    ensures Accepted(sub[key := v])
    ensures Patched(AssignValue(p, f, v), sub) == Patched(p, sub[key := v])
  {
    var full := sub[key := v];
    forall k | k in full ensures !Rejected(full, k) {
      if k != key {
        assert !Rejected(sub, k);
      }
    }
  }

  lemma {:induction false} ApplyInOrderRestricted(p: Player, patch: map<string, PatchValue>, order: seq<string>)
    requires forall i :: 0 <= i < |order| ==> order[i] in patch
    requires Distinct(order)
    ensures ApplyInOrder(p, patch, order).Ok? <==> Accepted(Restrict(patch, order))
    ensures Accepted(Restrict(patch, order)) ==>
      ApplyInOrder(p, patch, order) == Ok(Patched(p, Restrict(patch, order)))
    ensures ApplyInOrder(p, patch, order).Err? ==>
      var e := ApplyInOrder(p, patch, order).error;
      (e.NoSuchField? || e.FieldTypeMismatch?) && e.name in patch && e.name in order &&
      Rejected(patch, e.name) && e == Rejection(patch, e.name)
    decreases |order|
  {
    if order == [] {
      assert Restrict(patch, order) == map[];
    } else {
      var key := order[0];
      var rest := order[1..];
      var sub := Restrict(patch, rest);
      assert key !in rest by {
        forall i | 0 <= i < |rest| ensures rest[i] != key {
          assert rest[i] == order[i + 1];
        }
      }
      assert Restrict(patch, order) == sub[key := patch[key]] by {
        assert forall k :: k in order <==> k == key || k in rest;
      }
      match FieldNamed(key)
      case None =>
        assert Rejected(Restrict(patch, order), key);
      case Some(f) =>
        if Assignable(f, patch[key]) {
          var next := AssignValue(p, f, patch[key]);
          assert Distinct(rest) by {
            forall i, j | 0 <= i < j < |rest| ensures rest[i] != rest[j] {
              assert rest[i] == order[i + 1] && rest[j] == order[j + 1];
            }
          }
          ApplyInOrderRestricted(next, patch, rest);
          assert ApplyInOrder(p, patch, order) == ApplyInOrder(next, patch, rest);
          if Accepted(sub) {
            PatchedStep(p, sub, key, f, patch[key]);
          } else {
            var k :| k in sub && Rejected(sub, k);
            assert k in Restrict(patch, order) && Rejected(Restrict(patch, order), k);
          }
        } else {
          assert Rejected(Restrict(patch, order), key);
        }
    }
  }

  /**
   * Applying the entries one by one, in whatever order the map yields them,
   * succeeds exactly when every entry is accepted, and then gives Patched;
   * otherwise it fails with the rejection of one of the entries.
   */
  lemma PatchLoopMeetsPatched(p: Player, patch: map<string, PatchValue>, order: seq<string>)
    requires Enumerates(order, patch)
    ensures ApplyInOrder(p, patch, order).Ok? <==> Accepted(patch)
    ensures Accepted(patch) ==> ApplyInOrder(p, patch, order) == Ok(Patched(p, patch))
    ensures ApplyInOrder(p, patch, order).Err? ==>
      var e := ApplyInOrder(p, patch, order).error;
      (e.NoSuchField? || e.FieldTypeMismatch?) && e.name in patch &&
      Rejected(patch, e.name) && e == Rejection(patch, e.name)
  {
    ApplyInOrderRestricted(p, patch, order);
    assert Restrict(patch, order) == patch;
  }

  /** An empty patch changes nothing. */
  lemma EmptyPatchChangesNothing(p: Player)
    ensures Accepted(map[])
    ensures ApplyInOrder(p, map[], []) == Ok(p)
    ensures Patched(p, map[]) == p
  {
  }

  /** ReflectionUtils.setField on the entity, through the field's setter. */
  method SetField(e: PlayerEntity, f: Field, v: PatchValue)
    requires Assignable(f, v)
    modifies e
    ensures e.Value() == AssignValue(old(e.Value()), f, v)
  {
    match f
    case Id => e.SetId(v.i);
    case Name => e.SetName(StringOf(v));
    case Nationality => e.SetNationality(StringOf(v));
    case BirthDate => e.SetBirthDate(None);
    case Titles => e.SetTitles(v.i);
    case PlayerProfile => e.SetPlayerProfile(None);
  }
}
