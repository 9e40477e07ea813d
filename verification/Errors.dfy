/** The Go error values that the AgentRuntime manager tells apart. */
module Errors {
  import opened Basics

  /** `text` is what err.Error() prints. `Requeue` and `PostCreate` are the wrapping errors
      of ackrequeue.NeededAfter and ackerr.WrapPostCreateError; both unwrap. */
  datatype GoError =
    | TerminalError(text: string)
    | ApiError(code: string, text: string)
    | NotFound
    | Terminal
    | SecretTypeNotSupported
    | SecretNotFound
    | Plain(text: string)
    | ReferenceEmpty(field: string)
    | ReferenceTerminal(resource: string, namespace: string, name: string)
    | ReferenceNotSynced(resource: string, namespace: string, name: string)
    | ReferenceMissingTargetField(resource: string, namespace: string, name: string)
    | ReferenceAndIDNotSupported(field: string, refField: string)
    | Requeue(inner: GoError)
    | PostCreate(inner: GoError)

  /** errors.As(err, **ackerr.TerminalError) */
  predicate AsTerminal(e: GoError) {
    match e
    case TerminalError(_) => true
    case Requeue(inner) => AsTerminal(inner)
    case PostCreate(inner) => AsTerminal(inner)
    case _ => false
  }

  /** errors.As(err, *smithy.APIError): the service error inside, if there is one. */
  function AsApi(e: GoError): Option<GoError> {
    match e
    case ApiError(_, _) => Some(e)
    case Requeue(inner) => AsApi(inner)
    case PostCreate(inner) => AsApi(inner)
    case _ => None
  }

  /** terminalAWSError */
  predicate TerminalAWSError(e: GoError) {
    AsApi(e).Some? && AsApi(e).value.ApiError? && AsApi(e).value.code == "ValidationException"
  }

  /** The error code that sdkFind reads as "does not exist". */
  predicate IsMissing(e: GoError) {
    AsApi(e).Some? && AsApi(e).value.ApiError? && AsApi(e).value.code == "ResourceNotFoundException"
  }

  /** The guard of updateConditions' terminal branch. */
  predicate TerminalClass(e: GoError) {
    TerminalAWSError(e) || e == SecretTypeNotSupported || e == SecretNotFound || AsTerminal(e)
  }

  /** What a payload builder ends with. `Panicked` is the nil dereference that a nil claim or
      nil filesystem element causes. */
  datatype Build<+T> = Built(value: T) | Failed(err: GoError) | Panicked {
    predicate IsFailure() {
      !Built?
    }
    function PropagateFailure<U>(): Build<U>
      requires !Built?
    {
      if Failed? then Build<U>.Failed(err) else Build<U>.Panicked
    }
    function Extract(): T
      requires Built?
    {
      value
    }
  }

  datatype Result<+T> = Ok(value: T) | Err(err: GoError)
}
