/**
  The identity provider's auth-state listener of src/firebase.js: on every
  notification it logs the projected user into the slice, or logs the slice
  out when no user is present. The provider's user object arrives as a
  plain value; the subscription itself is outside the model.
 */
module AuthListener {
  import opened JsValues
  import opened AuthStore

  /** `{uid: user.uid, email: user.email, displayName: user.displayName}` for a present user. */
  function Projection(user: Value): (p: Value)
    requires Truthy(user)
    ensures p.Obj? && p.props.Keys == {"uid", "email", "displayName"}
    ensures forall k :: k in p.props ==> Property(user, k) == Ok(p.props[k])
  {
    Obj(map[
      "uid" := Property(user, "uid").value,
      "email" := Property(user, "email").value,
      "displayName" := Property(user, "displayName").value])
  }

  /** One auth-state notification, applied through the slice's `login` and `logout`. */
  method OnAuthStateChanged(slice: AuthSlice, user: Value)
    modifies slice
    ensures Truthy(user) ==> slice.user == Projection(user)
    ensures !Truthy(user) ==> slice.user == Null
  {
    if Truthy(user) {
      slice.Login(Projection(user));
    } else {
      slice.Logout();
    }
  }

  /**
    After a notification the slice knows whether someone is signed in: the
    user is a record exactly when the provider reported one, and `null`
    otherwise; it is never again `false`.
   */
  method NotifiedState(user: Value) returns (stored: Value)
    ensures stored.Obj? <==> Truthy(user)
    ensures stored != Bool(false)
    ensures Truthy(user) ==> Get(stored.props, "uid") == Property(user, "uid").value
  {
    var slice := new AuthSlice();
    OnAuthStateChanged(slice, user);
    stored := slice.user;
  }
}
