/** The coffee-type administration of admin/coffee-types.php: add and
    rename with a name check and a duplicate check, and delete refused
    while any stock row uses the type. */
module CoffeeTypes {
  import opened Common
  import opened Security
  import opened Ledger

  const NAME_REQUIRED: string := "Coffee type name is required."
  const NAME_TOO_SHORT: string := "Coffee type name must be at least 2 characters long."
  const ALREADY_EXISTS: string := "Coffee type already exists."
  const ADDED: string := "Coffee type added successfully!"
  const UPDATED: string := "Coffee type updated successfully!"
  const IN_USE: string := "Cannot delete coffee type. It is used in stock records."
  const DELETED: string := "Coffee type deleted successfully!"
  const TYPES_URL: string := BASE_URL + "/admin/coffee-types.php"

  /** Lines 24-28: a name must be non-empty in PHP's sense (so "0" is
      refused) and at least 2 bytes long; at most one error is given. */
  function NameErrors(name: string): (errors: seq<string>)
    ensures errors == [] <==> !Empty(name) && |name| >= 2
    ensures errors == [NAME_REQUIRED] <==> Empty(name)
    ensures |errors| <= 1
  {
    if Empty(name) then [NAME_REQUIRED]
    else if |name| < 2 then [NAME_TOO_SHORT]
    else []
  }

  /** Lines 18-69: a POST with `action` `add` or `edit`. A bad token gives
      only the invalid-request error, before the name is looked at. Add is
      refused when any type has the name, edit only when another type has
      it; an edit of an id that does not exist changes nothing and still
      reports success. Any other action does nothing. */
  method SaveType(session: Session, db: Database, csrfToken: string, action: string, id: int,
                  name: string, now: int)
    returns (outcome: Outcome)
    requires session.Valid() && db.Valid()
    modifies session, db`types, db`nextTypeId
    ensures session.Valid() && db.Valid()
    ensures !old(session.Admits(ROLE_ADMIN, now)) ==>
              outcome == Redirect(RefusedUrl(old(session.State()), now))
              && session.State() == Refused(old(session.State()), now) && db.types == old(db.types)
    ensures old(session.Admits(ROLE_ADMIN, now)) && !ValidateCSRFToken(old(session.csrf), csrfToken, now) ==>
              outcome == Page([INVALID_REQUEST]) && db.types == old(db.types) && unchanged(session)
    ensures old(session.Admits(ROLE_ADMIN, now)) && ValidateCSRFToken(old(session.csrf), csrfToken, now) ==>
              if NameErrors(name) != [] then
                outcome == Page(NameErrors(name)) && db.types == old(db.types) && unchanged(session)
              else if action == "add" then
                if NameTaken(old(db.types), name) then
                  outcome == Page([ALREADY_EXISTS]) && db.types == old(db.types) && unchanged(session)
                else
                  db.types == InsertType(old(db.types), old(db.nextTypeId), name, now)
                  && outcome == Redirect(TYPES_URL)
                  && session.State() == WithFlash(old(session.State()), "success", ADDED)
              else if action == "edit" then
                if NameTakenByOther(old(db.types), name, id) then
                  outcome == Page([ALREADY_EXISTS]) && db.types == old(db.types) && unchanged(session)
                else
                  db.types == RenameType(old(db.types), id, name)
                  && outcome == Redirect(TYPES_URL)
                  && session.State() == WithFlash(old(session.State()), "success", UPDATED)
              else
                outcome == Page([]) && db.types == old(db.types) && unchanged(session)
  {
    var gate := session.RequireRole(ROLE_ADMIN, now);
    if gate.Denied? {
      return Redirect(gate.url);
    }
    if !ValidateCSRFToken(session.csrf, csrfToken, now) {
      return Page([INVALID_REQUEST]);
    }
    var errors: seq<string> := [];
    if Empty(name) {
      errors := errors + [NAME_REQUIRED];
    } else if |name| < 2 {
      errors := errors + [NAME_TOO_SHORT];
    }
    if errors != [] {
      return Page(errors);
    }
    var success := "";
    if action == "add" {
      if NameTaken(db.types, name) {
        errors := errors + [ALREADY_EXISTS];
      } else {
        InsertTypeKeepsNamesUnique(db.types, db.nextTypeId, name, now);
        db.types := InsertType(db.types, db.nextTypeId, name, now);
        db.nextTypeId := db.nextTypeId + 1;
        success := ADDED;
      }
    } else if action == "edit" {
      if NameTakenByOther(db.types, name, id) {
        errors := errors + [ALREADY_EXISTS];
      } else {
        RenameTypeKeepsNamesUnique(db.types, id, name);
        db.types := RenameType(db.types, id, name);
        success := UPDATED;
      }
    }
    if success != "" {
      session.SetFlashMessage("success", success);
      return Redirect(TYPES_URL);
    }
    return Page(errors);
  }

  /** Lines 72-93: `?action=delete&id=...`. A bad token does nothing and
      reports nothing; a type that any stock row uses, even one with 0
      kilos, is kept; otherwise the type is deleted, and a missing id is
      reported as deleted too. An empty id (0) is ignored. */
  method DeleteCoffeeType(session: Session, db: Database, csrfToken: string, coffeeId: int, now: int)
    returns (outcome: Outcome)
    requires session.Valid() && db.Valid()
    modifies session, db`types
    ensures session.Valid() && db.Valid()
    ensures !old(session.Admits(ROLE_ADMIN, now)) ==>
              outcome == Redirect(RefusedUrl(old(session.State()), now))
              && session.State() == Refused(old(session.State()), now) && db.types == old(db.types)
    ensures old(session.Admits(ROLE_ADMIN, now)) && (coffeeId == 0 || !ValidateCSRFToken(old(session.csrf), csrfToken, now)) ==>
              outcome == Page([]) && db.types == old(db.types) && unchanged(session)
    ensures old(session.Admits(ROLE_ADMIN, now)) && coffeeId != 0 && ValidateCSRFToken(old(session.csrf), csrfToken, now) ==>
              if StockCount(old(db.stocks), coffeeId) > 0 then
                outcome == Page([IN_USE]) && db.types == old(db.types) && unchanged(session)
              else
                db.types == DeleteType(old(db.types), coffeeId)
                && outcome == Redirect(TYPES_URL)
                && session.State() == WithFlash(old(session.State()), "success", DELETED)
  {
    var gate := session.RequireRole(ROLE_ADMIN, now);
    if gate.Denied? {
      return Redirect(gate.url);
    }
    if coffeeId == 0 || !ValidateCSRFToken(session.csrf, csrfToken, now) {
      return Page([]);
    }
    if StockCount(db.stocks, coffeeId) > 0 {
      return Page([IN_USE]);
    }
    DeleteUnusedType(db.stocks, db.types, coffeeId);
    db.types := DeleteType(db.types, coffeeId);
    session.SetFlashMessage("success", DELETED);
    return Redirect(TYPES_URL);
  }
}
