/**
 * PlayerController: the HTTP handlers. They hold no state of their own;
 * each passes its id and body to the service and turns the outcome into a
 * status and a body. A not-found error becomes 404 with its message (the
 * exception handler's timestamp and request path are left out).
 */
module Controller {
  import opened Results
  import opened Players
  import opened Failures
  import opened Repository
  import opened Patching
  import opened Service
  import Text

  datatype Body =
    | PlayerJson(player: Player)
    | PlayerListJson(players: seq<Player>)
    | PlainText(text: string)
    | ErrorJson(statusCode: int, message: string)
    | ServerErrorBody
    | NoBody

  datatype Response = Response(status: int, body: Body)

  const WelcomeText: string := "Tennis Player REST API"

  const InvalidPlayerText: string :=
    "All player attributes (name, nationality, birthDate, titles) must be provided and valid"

  /**
   * The PUT body check: a name or nationality that is null or empty once
   * trimmed, a null birth date, or a negative title count makes it invalid.
   */
  function InvalidForPut(p: Player): (invalid: bool)
    ensures invalid <==>
      || p.name.None? || Text.Blank(p.name.value)
      || p.nationality.None? || Text.Blank(p.nationality.value)
      || p.birthDate.None?
      || p.titles < 0
  {
    || p.name.None? || Text.Trim(p.name.value) == []
    || p.nationality.None? || Text.Trim(p.nationality.value) == []
    || p.birthDate.None?
    || p.titles < 0
  }

  /**
   * The response for an error: not found is 404 with the exception's message;
   * any other error reaches the framework's default handler as a server error.
   */
  function ErrorResponse(e: Failure): (r: Response)
    ensures r.status == 404 <==> e.PlayerNotFound?
    ensures e.PlayerNotFound? ==> r.body == ErrorJson(404, e.message)
    ensures !e.PlayerNotFound? ==> r.status == 500
  {
    match e
    case PlayerNotFound(message) => Response(404, ErrorJson(404, message))
    case _ => Response(500, ServerErrorBody)
  }

  /**
   * The response for a service outcome carrying a player: the player with the
   * success status, or the error's response; a player body appears only on success.
   */
  function PlayerResponse(r: Outcome<Player>, okStatus: int): (resp: Response)
    ensures resp.body.PlayerJson? <==> r.Ok?
    ensures r.Ok? ==> resp.status == okStatus && resp.body.player == r.value
    ensures r.Err? ==> resp == ErrorResponse(r.error)
    ensures okStatus != 404 && okStatus != 500 ==> (resp.status == okStatus <==> r.Ok?)
  {
    match r
    case Ok(p) => Response(okStatus, PlayerJson(p))
    case Err(e) => ErrorResponse(e)
  }

  class PlayerController {
    const service: PlayerService

    constructor (service: PlayerService)
      ensures this.service == service
    {
      this.service := service;
    }

    method Welcome() returns (resp: Response)
      ensures resp == Response(200, PlainText(WelcomeText))
    {
      resp := Response(200, PlainText(WelcomeText));
    }

    /** GET /players: 200 with every player once, by ascending id. */
    method GetAllPlayers() returns (resp: Response)
      requires Valid(service.store)
      ensures resp.status == 200 && resp.body.PlayerListJson?
      ensures IdsAscending(resp.body.players)
      ensures forall i :: 0 <= i < |resp.body.players| ==>
        var p := resp.body.players[i];
        p.id in service.store.rows && service.store.rows[p.id] == p
      ensures forall id :: id in service.store.rows ==> service.store.rows[id] in resp.body.players
    {
      var players := service.GetAllPlayers();
      resp := Response(200, PlayerListJson(players));
    }

    /** GET /players/{id}: 200 with the player, or 404 with the not-found message. */
    method GetPlayer(id: int) returns (resp: Response)
      requires Valid(service.store)
      ensures id in service.store.rows ==> resp == Response(200, PlayerJson(service.store.rows[id]))
      ensures id !in service.store.rows ==> resp == Response(404, ErrorJson(404, NotFoundMessage(id)))
    {
      var r := service.GetPlayer(id);
      resp := PlayerResponse(r, 200);
    }

    /** POST /players: 201 with the player addPlayer created. */
    method AddPlayer(player: Player) returns (resp: Response)
      requires Valid(service.store)
      modifies service
      ensures var out := Added(old(service.store), player);
        service.store == out.1 && resp == PlayerResponse(out.0, 201)
    {
      var newPlayer := service.AddPlayer(player);
      resp := PlayerResponse(newPlayer, 201);
    }

    /**
     * PUT /players/{id}: an invalid body is answered 400 before the service is
     * consulted, whether or not the id exists; a valid one is 200 with the
     * updated player, or 404.
     */
    method UpdatePlayer(player: Player, id: int) returns (resp: Response)
      requires Valid(service.store)
      modifies service
      ensures InvalidForPut(player) ==>
        resp == Response(400, PlainText(InvalidPlayerText)) && service.store == old(service.store)
      ensures !InvalidForPut(player) ==>
        var out := Updated(old(service.store), id, player);
        service.store == out.1 && resp == PlayerResponse(out.0, 200)
    {
      if InvalidForPut(player) {
        resp := Response(400, PlainText(InvalidPlayerText));
        return;
      }
      var updatedPlayer := service.UpdatePlayer(id, player);
      resp := PlayerResponse(updatedPlayer, 200);
    }

    /** PATCH /players/{id}: 200 with the patched player, or the error. */
    method PartialUpdate(id: int, playerPatch: map<string, PatchValue>, order: seq<string>) returns (resp: Response)
      requires Valid(service.store)
      requires Enumerates(order, playerPatch)
      modifies service
      ensures var out := PatchApplied(old(service.store), id, playerPatch, order);
        service.store == out.1 && resp == PlayerResponse(out.0, 200)
    {
      var r := service.Patch(id, playerPatch, order);
      resp := PlayerResponse(r, 200);
    }

    /** PATCH /players/{id}/titles: always 200 with no body. */
    method UpdateTitles(id: int, titles: int) returns (resp: Response)
      requires Valid(service.store)
      modifies service
      ensures service.store == Repository.UpdateTitles(old(service.store), id, titles)
      ensures resp == Response(200, NoBody)
    {
      service.UpdateTitles(id, titles);
      resp := Response(200, NoBody);
    }

    /** DELETE /players/{id}: 200 with the confirmation text, or 404. */
    method DeletePlayer(id: int) returns (resp: Response)
      requires Valid(service.store)
      modifies service
      ensures var out := Deleted(old(service.store), id);
        && service.store == out.1
        && (out.0.Ok? ==> resp == Response(200, PlainText(out.0.value)))
        && (out.0.Err? ==> resp == ErrorResponse(out.0.error))
    {
      var r := service.DeletePlayer(id);
      match r
      case Ok(message) => resp := Response(200, PlainText(message));
      case Err(e) => resp := ErrorResponse(e);
    }
  }

  /** GET /players/999 on a store without that id: 404 and the message the tests expect. */
  lemma MissingPlayerMessage()
    ensures NotFoundMessage(999) == "Player with id 999 not found."
    ensures DeletedMessage(1) == "Player with id 1 deleted"
  {
    assert Text.NatDigits(9) == "9";
    assert Text.NatDigits(99) == "99";
    assert Text.IntToString(999) == "999";
    assert Text.IntToString(1) == "1";
  }

  /** The two PUT bodies the tests reject: an empty name, and a negative title count. */
  lemma RejectedPutBodies()
    ensures InvalidForPut(Player(0, Some(""), Some("Some Country"), Some(Date(1, 1, 1990)), 5, None))
    ensures InvalidForPut(Player(0, Some("Valid Name"), Some("Some Country"), Some(Date(1, 1, 1990)), -1, None))
    ensures !InvalidForPut(Player(0, Some("Updated Player"), Some("Updated Country"), Some(Date(1, 1, 1990)), 5, None))
  {
  }
}
