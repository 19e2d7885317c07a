/** The global error handler and the 404 handler: how a thrown error becomes
    an HTTP status and a JSON body. */
module ErrorHandler {
  import opened Common

  /** The parts of a thrown error the handler reads. */
  datatype Thrown = Thrown(
    name: string,
    statusCode: Option<int>,
    message: Option<string>,
    code: Option<string>,
    errors: Option<seq<string>>)

  /** A plain `new Error(message)` as the services throw it; a `status`
      attached to it is not a field the handler reads. */
  function FromError(e: Error): (t: Thrown)
    ensures t.statusCode.None? && t.code.None? && t.errors.None?
    ensures t.message == Some(e.message)
  {
    Thrown("Error", None, Some(e.message), None, None)
  }

  /** The error the services evidently mean to throw: the status they attach
      is the status the handler reads. */
  function FromStatusError(e: Error): (t: Thrown)
    ensures t.statusCode == e.status && t.code.None? && t.errors.None?
    ensures t.message == Some(e.message)
  {
    Thrown("Error", e.status, Some(e.message), None, None)
  }

  /** `{ success: false, message, errors? }` with the status it is sent with. */
  datatype Reply = Reply(status: int, message: Option<string>, errors: Option<seq<string>>)

  /** The status and message before the body is built: `statusCode`
      (default 500), then the name checks, then the database codes, each
      later check overriding the earlier ones. */
  function Classify(err: Thrown): (r: (int, Option<string>))
    ensures err.code == Some("23503") ==> r == (400, Some("Invalid reference"))
    ensures err.code == Some("23505") ==> r == (409, Some("Resource already exists"))
    ensures err.code != Some("23503") && err.code != Some("23505") ==>
              (err.name == "UnauthorizedError" ==> r == (401, Some("Unauthorized")))
              && (err.name == "ValidationError" ==> r == (400, Some("Validation Error")))
              && (err.name != "UnauthorizedError" && err.name != "ValidationError" ==>
                    r == (Default(err.statusCode, 500), err.message))
  {
    var status := Default(err.statusCode, 500);
    var message := err.message;
    var (status, message) := if err.name == "ValidationError" then (400, Some("Validation Error")) else (status, message);
    var (status, message) := if err.name == "UnauthorizedError" then (401, Some("Unauthorized")) else (status, message);
    var (status, message) := if err.code == Some("23505") then (409, Some("Resource already exists")) else (status, message);
    if err.code == Some("23503") then (400, Some("Invalid reference")) else (status, message)
  }

  /** `errorHandler`: outside development the message is always
      "Internal server error"; `errors` is sent only when non-empty. */
  function Handle(err: Thrown, development: bool): (r: Reply)
    ensures r.status == Classify(err).0
    ensures !development ==> r.message == Some("Internal server error")
    ensures development ==> r.message == Classify(err).1
    ensures r.errors.Some? <==> err.errors.Some? && |err.errors.value| > 0
    ensures r.errors.Some? ==> r.errors == err.errors
  {
    var (status, message) := Classify(err);
    Reply(status,
          if development then message else Some("Internal server error"),
          if err.errors.Some? && |err.errors.value| > 0 then err.errors else None)
  }

  /** An error that carries its HTTP status only as `status`, as the expense
      and investment services attach it, is still answered with 500. */
  lemma StatusFieldIsIgnored(e: Error, development: bool)
    ensures Handle(FromError(e), development).status == 500
  {
  }

  /** With the status read where it is attached, the error is answered with
      that status, and with 500 only when none is attached. */
  lemma AttachedStatusIsAnswered(e: Error, development: bool)
    ensures Handle(FromStatusError(e), development).status == Default(e.status, 500)
  {
  }

  /** The database codes decide the status whatever the error's name. */
  lemma DatabaseCodesWin(err: Thrown, development: bool)
    requires err.name == "ValidationError" || err.name == "UnauthorizedError"
    ensures err.code == Some("23505") ==> Handle(err, development).status == 409
    ensures err.code == Some("23503") ==> Handle(err, development).status == 400
    ensures err.code.None? ==> Handle(err, development).status == (if err.name == "ValidationError" then 400 else 401)
  {
  }

  /** `notFoundHandler`: 404 naming the route. */
  function NotFound(url: string): (r: Reply)
    ensures r.status == 404 && r.errors.None?
    ensures r.message == Some("Route " + url + " not found")
  {
    Reply(404, Some("Route " + url + " not found"), None)
  }
}
