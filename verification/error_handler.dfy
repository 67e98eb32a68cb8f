/** The backend's last-resort Express error middleware: it turns any error
    passed to `next` into an HTTP status and a JSON `{ error, stack? }`. */
module ErrorHandler {
  import opened Wrappers
  import opened Text

  /** An error object as the middleware reads it: `name`, `message`, the
      optional `statusCode`, and the runtime's stack trace text. */
  datatype AppError = AppError(name: string, message: string, statusCode: Option<int>, stack: string)

  /** The JSON reply: status, `error` text, and `stack` when it is sent. */
  datatype ErrorReply = ErrorReply(status: int, error: string, stack: Option<string>)

  const DefaultStatus := 500
  const DefaultMessage := "Internal Server Error"
  const ValidationMessage := "Validation Error"
  const TooLargeMessage := "File size too large. Maximum size is 10MB."
  const BadFieldMessage := "Invalid file field name."
  const UploadMessage := "File upload error."

  /** The text a multer failure is reported with, chosen by substring of its
      own message; "File too large" is looked for first. */
  function MulterMessage(message: string): (m: string)
    ensures Contains(message, "File too large") ==> m == TooLargeMessage
    ensures !Contains(message, "File too large") && Contains(message, "Unexpected field") ==> m == BadFieldMessage
    ensures !Contains(message, "File too large") && !Contains(message, "Unexpected field") ==> m == UploadMessage
  {
    if Contains(message, "File too large") then TooLargeMessage
    else if Contains(message, "Unexpected field") then BadFieldMessage
    else UploadMessage
  }

  /** `errorHandler`: defaults first, then the two named error kinds
      override both status and message; the stack is echoed only when
      `NODE_ENV` is exactly `development`. */
  function HandleError(e: AppError, nodeEnv: Option<string>): (r: ErrorReply)
    ensures e.name == "ValidationError" ==> r.status == 400 && r.error == ValidationMessage
    ensures e.name == "MulterError" ==> r.status == 400 && r.error == MulterMessage(e.message)
    ensures e.name != "ValidationError" && e.name != "MulterError" ==>
      && r.status == (if e.statusCode.None? || e.statusCode.value == 0 then 500 else e.statusCode.value)
      && r.error == (if e.message == "" then DefaultMessage else e.message)
    ensures r.stack.Some? <==> nodeEnv == Some("development")
    ensures r.stack.Some? ==> r.stack.value == e.stack
  {
    var status := OrElseInt(e.statusCode, DefaultStatus);
    var message := OrElse(Some(e.message), DefaultMessage);
    var (status, message) :=
      if e.name == "ValidationError" then (400, ValidationMessage)
      else if e.name == "MulterError" then (400, MulterMessage(e.message))
      else (status, message);
    ErrorReply(status, message, if nodeEnv == Some("development") then Some(e.stack) else None)
  }

  /** Whatever the error, the reply carries a non-empty message and a
      non-zero status. */
  lemma ReplyNeverBlank(e: AppError, nodeEnv: Option<string>)
    ensures HandleError(e, nodeEnv).error != ""
    ensures HandleError(e, nodeEnv).status != 0
  {
  }

  /** For the two named kinds the error's own status code is ignored. */
  lemma NamedKindsIgnoreStatusCode(e: AppError, code: Option<int>, nodeEnv: Option<string>)
    requires e.name == "ValidationError" || e.name == "MulterError"
    ensures HandleError(e.(statusCode := code), nodeEnv) == HandleError(e, nodeEnv)
  {
  }

  /** Outside development the reply never leaks the stack; in development
      it differs from the production reply only by the stack. */
  lemma StackOnlyInDevelopment(e: AppError, env: Option<string>)
    ensures env != Some("development") ==> HandleError(e, env).stack.None?
    ensures HandleError(e, Some("development")).(stack := None) == HandleError(e, Some("production"))
  {
  }
}
