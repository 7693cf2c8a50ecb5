/**
 * The OKR routes: every route first runs `requireUser`, then calls the
 * service and maps its outcome to a status code. No route looks at who the
 * authenticated user is: any signed-in user may change or delete any OKR.
 */
module OkrRoutes {
  import opened Common
  import opened OkrSchema
  import opened Database
  import opened AuthMiddleware
  import opened Http
  import OkrService
  import OkrList

  /** `POST /create-okr`: 201 with the new OKR, or 500 for any error the service throws. */
  method CreateRoute(db: Db, header: Option<string>, verify: string -> Option<string>, input: OkrInput, id: string)
    returns (resp: Response<Okr>)
    requires db.Valid() && OkrService.BodyTargetsPositive(input) && id !in db.okrs
    modifies db
    ensures db.Valid() && db.users == old(db.users)
    ensures var g := RequireUser(header, verify, old(db.users));
      && (g.Deny? ==> resp == Denied(g) && db.okrs == old(db.okrs))
      && (g.Admit? ==> (resp.status == 201 <==> OkrService.CreateSucceeds(old(db.okrs), input, id)))
      && (g.Admit? && resp.status == 201 ==>
            resp == Response(201, Ok(OkrService.Created(input, id)))
            && db.okrs == old(db.okrs)[id := OkrService.Created(input, id)])
      && (g.Admit? && resp.status != 201 ==> resp == Refuse(500, UNEXPECTED) && db.okrs == old(db.okrs))
      && (g.Admit? && OkrService.DatesOutOfOrder(input) ==> resp == Refuse(500, UNEXPECTED))
  {
    var gate := RequireUser(header, verify, db.users);
    if gate.Deny? {
      return Denied(gate);
    }
    var outcome := OkrService.Create(db, input, id);
    if outcome.Err? {
      return Refuse(500, UNEXPECTED);
    }
    return Response(201, Ok(outcome.value));
  }

  /** `GET /`: every stored OKR. */
  function ListRoute(header: Option<string>, verify: string -> Option<string>, db: Db): (resp: Response<map<string, Okr>>)
    reads db
    ensures RequireUser(header, verify, db.users).Admit? <==> resp.status == 200
    ensures resp.status == 200 ==> resp.body == Ok(db.okrs)
    ensures resp.status != 200 ==> resp.status == 401
  {
    var gate := RequireUser(header, verify, db.users);
    if gate.Deny? then Denied(gate) else Response(200, Ok(db.okrs))
  }

  /** `GET /:id`: the OKR, or 404 for an unknown id. */
  function GetRoute(header: Option<string>, verify: string -> Option<string>, db: Db, id: string): (resp: Response<Okr>)
    reads db
    ensures var g := RequireUser(header, verify, db.users);
      && (g.Deny? ==> resp == Denied(g))
      && (g.Admit? && id !in db.okrs ==> resp == Refuse(404, "OKR not found"))
      && (g.Admit? && id in db.okrs ==> resp == Response(200, Ok(db.okrs[id])))
  {
    var gate := RequireUser(header, verify, db.users);
    if gate.Deny? then Denied(gate)
    else
      var found := OkrService.Get(db.okrs, id);
      if found.None? then Refuse(404, "OKR not found") else Response(200, Ok(found.value))
  }

  /**
   * `PUT /:id`: 404 for an unknown id, 500 for any error the service throws
   * (dates out of order, a duplicate title), otherwise 200 with the patched
   * OKR, whoever the authenticated user is: a user the client shows no edit
   * control to is served like any other.
   */
  method UpdateRoute(db: Db, header: Option<string>, verify: string -> Option<string>, id: string, patch: OkrInput)
    returns (resp: Response<Okr>)
    requires db.Valid() && OkrService.BodyTargetsPositive(patch)
    modifies db
    ensures db.Valid() && db.users == old(db.users)
    ensures var g := RequireUser(header, verify, old(db.users));
      && (g.Deny? ==> resp == Denied(g) && db.okrs == old(db.okrs))
      && (g.Admit? && OkrService.DatesOutOfOrder(patch) ==> resp == Refuse(500, UNEXPECTED) && db.okrs == old(db.okrs))
      && (g.Admit? && !OkrService.DatesOutOfOrder(patch) && id !in old(db.okrs) ==>
            resp == Refuse(404, "OKR not found") && db.okrs == old(db.okrs))
      && (g.Admit? && !OkrService.DatesOutOfOrder(patch) && id in old(db.okrs) ==>
            var updated := OkrService.ApplyPatch(old(db.okrs)[id], patch);
            if TitleTaken(old(db.okrs), updated.title, id) then resp == Refuse(500, UNEXPECTED) && db.okrs == old(db.okrs)
            else resp == Response(200, Ok(updated)) && db.okrs == old(db.okrs)[id := updated])
      && (g.Admit? && !OkrService.DatesOutOfOrder(patch) && id in old(db.okrs)
          && !OkrList.CanEdit(old(db.okrs)[id], g.user.id) ==>
            (resp.status == 200 <==> !TitleTaken(old(db.okrs), OkrService.ApplyPatch(old(db.okrs)[id], patch).title, id)))
  {
    var gate := RequireUser(header, verify, db.users);
    if gate.Deny? {
      return Denied(gate);
    }
    var outcome := OkrService.Update(db, id, patch);
    if outcome.Err? {
      return Refuse(500, UNEXPECTED);
    }
    if outcome.value.None? {
      return Refuse(404, "OKR not found");
    }
    return Response(200, Ok(outcome.value.value));
  }

  /**
   * `DELETE /:id`: 404 for an unknown id, otherwise 200 and the OKR removed,
   * whoever asks, including a user the client shows no delete control to.
   */
  method DeleteRoute(db: Db, header: Option<string>, verify: string -> Option<string>, id: string)
    returns (resp: Response<string>)
    requires db.Valid()
    modifies db
    ensures db.Valid() && db.users == old(db.users)
    ensures var g := RequireUser(header, verify, old(db.users));
      && (g.Deny? ==> resp == Denied(g) && db.okrs == old(db.okrs))
      && (g.Admit? && id !in old(db.okrs) ==> resp == Refuse(404, "OKR not found") && db.okrs == old(db.okrs))
      && (g.Admit? && id in old(db.okrs) ==>
            resp == Response(200, Ok("OKR deleted successfully")) && db.okrs == old(db.okrs) - {id})
      && (g.Admit? && id in old(db.okrs) && !OkrList.CanEdit(old(db.okrs)[id], g.user.id) ==>
            resp.status == 200 && id !in db.okrs)
  {
    var gate := RequireUser(header, verify, db.users);
    if gate.Deny? {
      return Denied(gate);
    }
    var deleted := OkrService.Delete(db, id);
    if !deleted {
      return Refuse(404, "OKR not found");
    }
    return Response(200, Ok("OKR deleted successfully"));
  }
}
