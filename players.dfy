/**
 * The Player entity: the value a stored row or a request body holds, and the
 * mutable Java object that the service loads, changes through its setters and saves.
 */
module Players {
  import opened Results

  /**
   * A birth date (the API writes it as dd-MM-yyyy). Its parts are carried as
   * they are; no calendar arithmetic is modelled.
   */
  datatype Date = Date(day: int, month: int, year: int)

  /** PlayerProfile: its store-assigned id and an optional twitter handle. */
  datatype Profile = Profile(id: int, twitter: Option<string>)

  /**
   * The state of a Player. A Java reference that may be null is an Option;
   * id and titles are Java ints and are never null.
   */
  datatype Player = Player(
    id: int,
    name: Option<string>,
    nationality: Option<string>,
    birthDate: Option<Date>,
    titles: int,
    playerProfile: Option<Profile>)

  /** a and b agree on the four attributes a full update writes. */
  predicate SameDetails(a: Player, b: Player) {
    && a.name == b.name
    && a.nationality == b.nationality
    && a.birthDate == b.birthDate
    && a.titles == b.titles
  }

  /** a and b both have a profile with the same handle, or neither has one. */
  predicate SameProfileContent(a: Player, b: Player) {
    && (a.playerProfile.Some? <==> b.playerProfile.Some?)
    && (a.playerProfile.Some? ==> a.playerProfile.value.twitter == b.playerProfile.value.twitter)
  }

  /** The Java object Player, whose private fields its setters change one at a time. */
  class PlayerEntity {
    var id: int
    var name: Option<string>
    var nationality: Option<string>
    var birthDate: Option<Date>
    var titles: int
    var playerProfile: Option<Profile>

    /** The state of this object, as a value. */
    function Value(): Player
      reads this
    {
      Player(id, name, nationality, birthDate, titles, playerProfile)
    }

    /** The no-argument constructor: every reference null, id and titles 0. */
    constructor ()
      ensures Value() == Player(0, None, None, None, 0, None)
    {
      id, name, nationality, birthDate, titles, playerProfile := 0, None, None, None, 0, None;
    }

    /** The four-argument constructor: id stays 0 and the profile null. */
    constructor WithDetails(name: Option<string>, nationality: Option<string>, birthDate: Option<Date>, titles: int)
      ensures Value() == Player(0, name, nationality, birthDate, titles, None)
    {
      this.id := 0;
      this.name := name;
      this.nationality := nationality;
      this.birthDate := birthDate;
      this.titles := titles;
      this.playerProfile := None;
    }

    /** The five-argument constructor: as WithDetails, and the given profile. */
    constructor WithProfile(name: Option<string>, nationality: Option<string>, birthDate: Option<Date>, titles: int,
                            profile: Option<Profile>)
      ensures Value() == Player(0, name, nationality, birthDate, titles, profile)
    {
      this.id := 0;
      this.name := name;
      this.nationality := nationality;
      this.birthDate := birthDate;
      this.titles := titles;
      this.playerProfile := profile;
    }

    method SetId(id: int)
      modifies this
      ensures Value() == old(Value()).(id := id)
    {
      this.id := id;
    }

    method SetName(name: Option<string>)
      modifies this
      ensures Value() == old(Value()).(name := name)
    {
      this.name := name;
    }

    method SetNationality(nationality: Option<string>)
      modifies this
      ensures Value() == old(Value()).(nationality := nationality)
    {
      this.nationality := nationality;
    }

    method SetBirthDate(birthDate: Option<Date>)
      modifies this
      ensures Value() == old(Value()).(birthDate := birthDate)
    {
      this.birthDate := birthDate;
    }

    /** Any int is accepted: the entity places no constraint on titles. */
    method SetTitles(titles: int)
      modifies this
      ensures Value() == old(Value()).(titles := titles)
    {
      this.titles := titles;
    }

    method SetPlayerProfile(playerProfile: Option<Profile>)
      modifies this
      ensures Value() == old(Value()).(playerProfile := playerProfile)
    {
      this.playerProfile := playerProfile;
    }
  }
}
