/** The two message tables of the application (utils/messages.js and utils/error.messages.js). */
module Messages {
  import opened Wrappers

  datatype ErrorKey =
    | EmailAlreadyExists
    | Unauthorized
    | InvalidRequest
    | InvalidCredentials
    | InternalServerError
    | TokenExpired
    | InvalidToken
    | ValidationFailed
    | ProductNotFound

  datatype SuccessKey =
    | LoginSuccess
    | RegistrationSuccess
    | ProductAdded
    | ProductUpdated
    | ProductFound
    | ProductDeleted
    | CategoryAdded
    | CategoryFound

  /** `errorMessages` of utils/messages.js: every key has a text. */
  function ErrorText(k: ErrorKey): string
  {
    match k
    case EmailAlreadyExists => "Email already exists"
    case Unauthorized => "Unauthorized"
    case InvalidRequest => "Invalid request. Please provide a username and password."
    case InvalidCredentials => "Invalid username or password."
    case InternalServerError => "An internal server error occurred. Please try again later."
    case TokenExpired => "Access token is expired"
    case InvalidToken => "Access token is invalid"
    case ValidationFailed => "Validation failed for given parameters"
    case ProductNotFound => "Product not found"
  }

  /** The default export of utils/error.messages.js. It has no `VALIDATION_FAILED`
      and no `PRODUCT_NOT_FOUND`, so reading those yields `undefined`. */
  function LegacyErrorText(k: ErrorKey): (t: Option<string>)
    ensures t.None? <==> k == ValidationFailed || k == ProductNotFound
    ensures t.Some? ==> t.value == ErrorText(k)
  {
    match k
    case EmailAlreadyExists => Some("Email already exists")
    case Unauthorized => Some("Unauthorized")
    case InvalidRequest => Some("Invalid request. Please provide a username and password.")
    case InvalidCredentials => Some("Invalid username or password.")
    case InternalServerError => Some("An internal server error occurred. Please try again later.")
    case TokenExpired => Some("Access token is expired")
    case InvalidToken => Some("Access token is invalid")
    case ValidationFailed => None
    case ProductNotFound => None
  }

  /** `successMessages` of utils/messages.js. */
  function SuccessText(k: SuccessKey): string
  {
    match k
    case LoginSuccess => "Logged successfully"
    case RegistrationSuccess => "Registration successfully"
    case ProductAdded => "Product added successfully"
    case ProductUpdated => "Product updated successfully"
    case ProductFound => "Products found"
    case ProductDeleted => "Product deleted successfully"
    case CategoryAdded => "Category added successfully"
    case CategoryFound => "Products found"
  }
}
