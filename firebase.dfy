/** What the scripts read from the hosted identity service: whether its
    SDK is initialised, the signed-in user and the outcome of a sign-in.
    The service itself is not modelled; these values are its answers. */
module Firebase {
  import opened Wrappers

  /** The `apps` property of the SDK object, as `Array.isArray` sees it. */
  datatype Apps = NotAnArray | AppList(count: nat)

  /** The global `firebase` binding: absent, present, or one whose property
      access throws. */
  datatype SdkGlobal = Absent | Loaded(apps: Apps) | Throwing

  /** `firebaseReady()`: a loaded SDK with at least one initialised app; any
      exception counts as not ready. */
  function FirebaseReady(g: SdkGlobal): (ready: bool)
    ensures ready <==> g.Loaded? && g.apps.AppList? && g.apps.count > 0
    ensures g.Throwing? || g.Absent? ==> !ready
  {
    match g
    case Absent => false
    case Throwing => false
    case Loaded(apps) =>
      match apps
      case NotAnArray => false
      case AppList(n) => n > 0
  }

  /** A signed-in user: `email` is None for null or undefined. */
  datatype User = User(email: Option<string>, isAnonymous: bool)

  /** `user?.email` is truthy: present and not the empty string. */
  predicate HasEmail(email: Option<string>) {
    email.Some? && email.value != ""
  }

  /** How the awaited `setPersistence` and `signInWithEmailAndPassword`
      settle: both resolve; `setPersistence` rejects, so the sign-in is
      never requested; or the sign-in itself rejects. A rejection carries
      the error's `message`, the empty string also standing for a missing
      one. */
  datatype SignInResult = Succeeded | PersistenceFailed(message: string) | SignInFailed(message: string)
}
