/**
 * Who is asking, and the permission class `IsAuthorOrReadOnly`.
 *
 * Despite its name the class has no read-only exemption: the view-level
 * check admits exactly the authenticated users, whatever the HTTP method,
 * and the object-level check admits the object's author and superusers,
 * whatever the method.
 */
module Permissions {

  /** `request.user`: the anonymous user, or a user of the table by key. */
  datatype Requester = Anonymous | Authenticated(id: nat, isSuperuser: bool)

  datatype HttpMethod = Get | Head | Options | Post | Put | Patch | Delete

  /** The methods the framework calls safe (read-only). */
  predicate IsSafe(m: HttpMethod) {
    m == Get || m == Head || m == Options
  }

  /** `has_permission`: `request.user and request.user.is_authenticated`.
      The anonymous user object is truthy but not authenticated. */
  predicate HasPermission(requester: Requester, m: HttpMethod)
  {
    match requester
    case Anonymous => false
    case Authenticated(_, _) => true
  }

  /** `has_object_permission`: `obj.author == request.user or request.user.is_superuser`,
      for an object written by the user with key `author`. The anonymous user
      equals no user and is no superuser. */
  predicate HasObjectPermission(requester: Requester, m: HttpMethod, author: nat)
  {
    match requester
    case Anonymous => false
    case Authenticated(id, isSuperuser) => id == author || isSuperuser
  }

  /** Reads are refused to the anonymous user too: the name's "or read only" is not implemented. */
  lemma ReadsNeedAuthentication(m: HttpMethod)
    requires IsSafe(m)
    ensures !HasPermission(Anonymous, m)
  {
  }

  /** The author of an object may act on it. */
  lemma AuthorGranted(id: nat, isSuperuser: bool, m: HttpMethod)
    ensures HasObjectPermission(Authenticated(id, isSuperuser), m, id)
  {
  }

  /** A superuser may act on any object. */
  lemma SuperuserGranted(id: nat, m: HttpMethod, author: nat)
    ensures HasObjectPermission(Authenticated(id, true), m, author)
  {
  }

  /** Anyone else is refused, even for a safe method. */
  lemma OthersDenied(id: nat, m: HttpMethod, author: nat)
    requires id != author
    ensures !HasObjectPermission(Authenticated(id, false), m, author)
    ensures !HasObjectPermission(Anonymous, m, author)
  {
  }

  /** Neither check depends on the request method. */
  lemma MethodIrrelevant(requester: Requester, m: HttpMethod, m': HttpMethod, author: nat)
    ensures HasPermission(requester, m) == HasPermission(requester, m')
    ensures HasObjectPermission(requester, m, author) == HasObjectPermission(requester, m', author)
  {
  }
}
