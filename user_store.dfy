/** The client-side record of the signed-in account: the account, a loading
    flag and the last error. */
module UserStore {
  import opened Common
  import WebhookController

  type User = WebhookController.User

  class UserSession {
    var user: Option<User>
    var isLoading: bool
    var error: Option<string>

    constructor ()
      ensures user == None && !isLoading && error == None
    {
      user := None;
      isLoading := false;
      error := None;
    }

    /** True exactly when an account is set and it has the admin role. */
    function IsAdmin(): (r: bool)
      reads this
      ensures r <==> user.Some? && user.value.role == WebhookController.AdminRole
    {
      match user
      case Some(u) => u.role.AdminRole?
      case None => false
    }

    /** Stores the account (or none) and clears the error. */
    method SetUser(u: Option<User>)
      modifies this
      ensures user == u && error == None && isLoading == old(isLoading)
      ensures IsAdmin() <==> u.Some? && u.value.role == WebhookController.AdminRole
    {
      user := u;
      error := None;
    }

    method SetLoading(loading: bool)
      modifies this
      ensures isLoading == loading && user == old(user) && error == old(error)
    {
      isLoading := loading;
    }

    method SetError(e: Option<string>)
      modifies this
      ensures error == e && user == old(user) && isLoading == old(isLoading)
    {
      error := e;
    }

    /** Signs out: no account and no error, so no admin rights. */
    method ClearUser()
      modifies this
      ensures user == None && error == None && isLoading == old(isLoading)
      ensures !IsAdmin()
    {
      user := None;
      error := None;
    }
  }
}
