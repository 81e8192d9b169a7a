/** The errors the service raises and the texts it reports. */
module Failures {
  import opened Results
  import Text

  /**
   * PlayerNotFound is PlayerNotFoundException with its message. NoSuchField is
   * the NullPointerException that a patch key naming no field of Player raises;
   * FieldTypeMismatch the IllegalArgumentException of a value the field cannot
   * hold. StoreFailure is a write the store refuses.
   */
  datatype Failure =
    | PlayerNotFound(message: string)
    | NoSuchField(name: string)
    | FieldTypeMismatch(name: string)
    | StoreFailure

  type Outcome<T> = Result<T, Failure>

  /**
   * The message of every not-found error. It names the id: the id can be read
   * back from the text between the fixed prefix and suffix.
   */
  function NotFoundMessage(id: int): (m: string)
    ensures |m| >= 27 && Text.ParseInt(m[15..|m| - 11]) == Some(id)
  {
    var m := "Player with id " + Text.IntToString(id) + " not found.";
    assert m[15..|m| - 11] == Text.IntToString(id);
    Text.IntToStringRoundTrip(id);
    m
  }

  /** The confirmation a successful delete returns; it names the id likewise. */
  function DeletedMessage(id: int): (m: string)
    ensures |m| >= 24 && Text.ParseInt(m[15..|m| - 8]) == Some(id)
  {
    var m := "Player with id " + Text.IntToString(id) + " deleted";
    assert m[15..|m| - 8] == Text.IntToString(id);
    Text.IntToStringRoundTrip(id);
    m
  }

  /** Different ids give different not-found messages. */
  lemma NotFoundMessageInjective(a: int, b: int)
    ensures NotFoundMessage(a) == NotFoundMessage(b) ==> a == b
  {
  }

  /** Different ids give different delete confirmations. */
  lemma DeletedMessageInjective(a: int, b: int)
    ensures DeletedMessage(a) == DeletedMessage(b) ==> a == b
  {
  }

  /** A delete confirmation is never mistaken for a not-found message. */
  lemma DeletedIsNotNotFound(a: int, b: int)
    ensures DeletedMessage(a) != NotFoundMessage(b)
  {
    var d, n := DeletedMessage(a), NotFoundMessage(b);
    assert d[|d| - 1] == 'd';
    assert n[|n| - 1] == '.';
  }
}
