/** The failures a retrieval can end with, one per exception the retriever raises or lets through. */
module Errors {
  import opened Wrappers

  datatype Error =
      /** `IllegalArgumentException` from `buildRegistry`: a non-empty credentials ID matched nothing. */
    | CredentialsNotFound(id: string)
      /** Thrown by the ORAS reference parser for a text it does not accept. */
    | MalformedReference(reference: string)
      /** A failure reported by the ORAS registry client while fetching a manifest or pulling. */
    | RegistryFailure(reason: string)
      /** `IllegalArgumentException` from `ensureArtifactType`; carries the media type that was found
          (`None` when the manifest declares none). */
    | InvalidArtifactType(found: Option<string>)
      /** `AbortException`: the build's parent item is not a top-level item. */
    | NotTopLevel
      /** `IOException`: no workspace for the item, or no computer for the controller. */
    | Offline(displayName: string)
      /** `IndexOutOfBoundsException` from `list().get(0)` on an empty staging directory. */
    | EmptyListing
  {
    /** The message of the exception, for the failures whose text the retriever itself writes. */
    function Message(): string
      requires CredentialsNotFound? || NotTopLevel? || Offline?
    {
      match this
      case CredentialsNotFound(id) => "No credentials found with ID: " + id
      case NotTopLevel => "Cannot check out in non-top-level build"
      case Offline(name) => name + " may be offline"
    }
  }
}
