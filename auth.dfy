/**
  The client-side auth store of src/store/auth.js.

  The state is an object whose `user` property holds `false` before anything
  is known, `null` once signed out, and a user record once signed in. Two
  sets of transitions act on it: the slice reducers `login` and `logout`,
  which assign `state.user` on a draft (the class AuthSlice), and the
  standalone `authReducer`, a pure function from the old state and an action
  to the new state, with its action creator `updateUser`.
 */
module AuthStore {
  import opened JsValues

  datatype Option<T> = None | Some(value: T)

  const UpdateUserType: string := "UPDATE_USER"
  const LogoutType: string := "LOGOUT"

  /** `initialState`: the user is not yet known. */
  const InitialState: map<string, Value> := map["user" := Bool(false)]

  /** The `user` slot of a state object. */
  function UserOf(state: map<string, Value>): Value {
    Get(state, "user")
  }

  /** `updateUser(userData)`: the action `{type: "UPDATE_USER", payload: userData}`. */
  function UpdateUser(userData: Value): (action: Value)
    ensures action.Obj? && action.props.Keys == {"type", "payload"}
    ensures Property(action, "type") == Ok(Str(UpdateUserType))
    ensures Property(action, "payload") == Ok(userData)
  {
    Obj(map["type" := Str(UpdateUserType), "payload" := userData])
  }

  /** The state `authReducer` works on: its default parameter replaces `undefined`. */
  function Effective(state: Value): (s: Value)
    ensures s != Undefined
    ensures state == Undefined ==> s == Obj(InitialState)
    ensures state != Undefined ==> s == state
  {
    if state.Undefined? then Obj(InitialState) else state
  }

  predicate HasType(action: Value, t: string) {
    Property(action, "type") == Ok(Str(t))
  }

  /** An action that reaches the `default` branch: its type is neither of the two handled ones. */
  predicate IsOtherAction(action: Value) {
    !IsNullish(action) && !HasType(action, UpdateUserType) && !HasType(action, LogoutType)
  }

  /**
    `authReducer(state = initialState, action)`. Reading `action.type` throws
    on a `null` or `undefined` action, and reading `state.user` throws on a
    `null` state; otherwise:
    - UPDATE_USER copies the state and replaces `user` by the spread of the
      old user overlaid with the spread of the payload;
    - LOGOUT returns `initialState`;
    - any other type returns the (defaulted) state itself.
   */
  function AuthReducer(state: Value, action: Value): (r: Result<Value>)
    // the error cases
    ensures r.Err? <==> IsNullish(action) || (HasType(action, UpdateUserType) && state.Null?)
    // LOGOUT resets to initialState (user `false`, not `null`)
    ensures HasType(action, LogoutType) ==> r == Ok(Obj(InitialState))
    // every other action leaves the state untouched
    ensures IsOtherAction(action) ==> r == Ok(Effective(state))
    ensures r.Ok? ==> r.value != Undefined
    // UPDATE_USER: the user is merged, everything else is kept
    ensures HasType(action, UpdateUserType) && !state.Null? ==>
      UpdatedUser(Effective(state), Property(action, "payload").value, r)
  {
    var s := Effective(state);
    match Property(action, "type")
    case Err(e) => Err(e)
    case Ok(t) =>
      if t == Str(UpdateUserType) then
        match Property(s, "user")
        case Err(e) => Err(e)
        case Ok(user) =>
          var payload := Property(action, "payload").value;
          Ok(Obj(Spread(s)["user" := Obj(SpreadMerge(user, payload))]))
      else if t == Str(LogoutType) then
        Ok(Obj(InitialState))
      else
        Ok(s)
  }

  /**
    What UPDATE_USER promises about its result `r` from the prior state `s`:
    an object whose `user` is a record holding exactly the keys of the old
    user and of the payload, every payload key with the payload's value and
    every other key with its old value; every top-level key other than
    `user` is copied unchanged.
   */
  ghost predicate UpdatedUser(s: Value, payload: Value, r: Result<Value>)
    requires !IsNullish(s)
  {
    var oldUser := Spread(Property(s, "user").value);
    var fields := Spread(payload);
    && r.Ok? && r.value.Obj?
    && "user" in r.value.props && r.value.props["user"].Obj?
    && var newUser := r.value.props["user"].props;
    && newUser.Keys == oldUser.Keys + fields.Keys
    && (forall k :: k in fields ==> newUser[k] == fields[k])
    && (forall k :: k in oldUser && k !in fields ==> newUser[k] == oldUser[k])
    && r.value.props.Keys == Spread(s).Keys + {"user"}
    && (forall k :: k in Spread(s) && k != "user" ==> r.value.props[k] == Spread(s)[k])
  }

  /** Called with no state, `authReducer` starts from `initialState`. */
  lemma NoStateIsInitialState(action: Value)
    ensures AuthReducer(Undefined, action) == AuthReducer(Obj(InitialState), action)
    ensures UserOf(InitialState) == Bool(false)
  {
  }

  /** On a signed-out or not-yet-known user, UPDATE_USER installs exactly the payload's fields. */
  lemma UpdateOntoNoUser(state: map<string, Value>, payload: Value)
    requires UserOf(state) == Bool(false) || UserOf(state) == Null || UserOf(state) == Undefined
    ensures AuthReducer(Obj(state), UpdateUser(payload))
         == Ok(Obj(state["user" := Obj(Spread(payload))]))
    ensures payload.Obj? ==>
      AuthReducer(Obj(state), UpdateUser(payload)) == Ok(Obj(state["user" := payload]))
  {
    assert Spread(UserOf(state)) == map[];
    assert SpreadMerge(UserOf(state), payload) == Spread(payload);
  }

  /** Dispatching the same UPDATE_USER twice gives the same state as dispatching it once. */
  lemma UpdateUserIdempotent(state: Value, payload: Value)
    requires !state.Null?
    ensures AuthReducer(state, UpdateUser(payload)).Ok?
    ensures AuthReducer(AuthReducer(state, UpdateUser(payload)).value, UpdateUser(payload))
         == AuthReducer(state, UpdateUser(payload))
  {
    var s := Effective(state);
    var user := Property(s, "user").value;
    var once := Obj(Spread(s)["user" := Obj(SpreadMerge(user, payload))]);
    assert AuthReducer(state, UpdateUser(payload)) == Ok(once);
    assert Property(once, "user") == Ok(Obj(SpreadMerge(user, payload)));
    SpreadMergeTwice(user, payload);
    assert Spread(once)["user" := Obj(SpreadMerge(user, payload))] == Spread(once);
  }

  /** LOGOUT twice is LOGOUT once. */
  lemma LogoutIdempotent(state: Value, logout: Value)
    requires HasType(logout, LogoutType)
    ensures AuthReducer(state, logout).Ok?
    ensures AuthReducer(AuthReducer(state, logout).value, logout) == AuthReducer(state, logout)
  {
  }

  // ---------------------------------------------------------------------
  // A sequence of dispatches, as a store applies the reducer to each action
  // in turn; the first exception ends the sequence.

  function Replay(state: Value, actions: seq<Value>): (r: Result<Value>)
    decreases |actions|
  {
    if actions == [] then Ok(state)
    else
      match AuthReducer(state, actions[0])
      case Err(e) => Err(e)
      case Ok(next) => Replay(next, actions[1..])
  }

  function Continue(r: Result<Value>, actions: seq<Value>): Result<Value> {
    match r
    case Err(e) => Err(e)
    case Ok(s) => Replay(s, actions)
  }

  /** Dispatching `a` then `b` is dispatching `a + b`. */
  lemma {:induction false} ReplayAppend(state: Value, a: seq<Value>, b: seq<Value>)
    ensures Replay(state, a + b) == Continue(Replay(state, a), b)
    decreases |a|
  {
    if a != [] {
      assert (a + b)[0] == a[0];
      assert (a + b)[1..] == a[1..] + b;
      match AuthReducer(state, a[0])
      case Err(_) =>
      case Ok(next) => ReplayAppend(next, a[1..], b);
    } else {
      assert a + b == b;
    }
  }

  /**
    Whatever happened before, a LOGOUT forgets it: the store continues as
    from `initialState`, unless the earlier history already threw.
   */
  lemma ReplayLogoutForgets(state: Value, before: seq<Value>, logout: Value, after: seq<Value>)
    requires HasType(logout, LogoutType)
    ensures Replay(state, before).Ok? ==>
      Replay(state, before + [logout] + after) == Replay(Obj(InitialState), after)
    ensures Replay(state, before).Err? ==> Replay(state, before + [logout] + after).Err?
  {
    ReplayAppend(state, before, [logout] + after);
    assert before + [logout] + after == before + ([logout] + after);
    assert ([logout] + after)[0] == logout && ([logout] + after)[1..] == after;
  }

  /** The actions a sequence keeps once the ones reaching `default` are dropped. */
  function HandledOnly(actions: seq<Value>): (r: seq<Value>)
    ensures |r| <= |actions|
    ensures forall i :: 0 <= i < |r| ==> !IsOtherAction(r[i])
  {
    if actions == [] then []
    else if IsOtherAction(actions[0]) then HandledOnly(actions[1..])
    else [actions[0]] + HandledOnly(actions[1..])
  }

  /** Once the state is set up, actions of any other type have no effect on the outcome. */
  lemma {:induction false} ReplayIgnoresOtherActions(state: Value, actions: seq<Value>)
    requires state != Undefined
    ensures Replay(state, actions) == Replay(state, HandledOnly(actions))
    decreases |actions|
  {
    if actions != [] {
      var rest := actions[1..];
      if IsOtherAction(actions[0]) {
        ReplayIgnoresOtherActions(state, rest);
      } else {
        var kept := [actions[0]] + HandledOnly(rest);
        assert kept[0] == actions[0] && kept[1..] == HandledOnly(rest);
        match AuthReducer(state, actions[0])
        case Err(_) =>
        case Ok(next) => ReplayIgnoresOtherActions(next, rest);
      }
    }
  }

  /** The UPDATE_USER actions for a sequence of payloads. */
  function Updates(payloads: seq<Value>): (r: seq<Value>)
    ensures |r| == |payloads|
    ensures forall i :: 0 <= i < |payloads| ==> r[i] == UpdateUser(payloads[i])
  {
    seq(|payloads|, i requires 0 <= i < |payloads| => UpdateUser(payloads[i]))
  }

  /** The index of the last payload that carries `key`, if any. */
  function LastWith(payloads: seq<Value>, key: string): (r: Option<nat>)
    ensures r.Some? ==> r.value < |payloads| && key in Spread(payloads[r.value])
    ensures r.Some? ==> forall j :: r.value < j < |payloads| ==> key !in Spread(payloads[j])
    ensures r.None? ==> forall j :: 0 <= j < |payloads| ==> key !in Spread(payloads[j])
  {
    if payloads == [] then None
    else if key in Spread(payloads[|payloads| - 1]) then Some(|payloads| - 1)
    else LastWith(payloads[..|payloads| - 1], key)
  }

  /** The fields of the `user` in a state object. */
  function UserFields(state: map<string, Value>): map<string, Value> {
    Spread(UserOf(state))
  }

  /**
    A run of UPDATE_USER dispatches on a state object: each user field holds
    the value of the last payload that has it, or its old value when no
    payload has it; no field is lost; every other top-level key is kept.
   */
  lemma {:induction false} ReplayUpdates(state: map<string, Value>, payloads: seq<Value>)
    ensures Replay(Obj(state), Updates(payloads)).Ok?
    ensures Replay(Obj(state), Updates(payloads)).value.Obj?
    ensures var out := Replay(Obj(state), Updates(payloads)).value.props;
      && (payloads != [] ==> UserOf(out).Obj?)
      && (forall k :: k in UserFields(out) <==> k in UserFields(state) || LastWith(payloads, k).Some?)
      && (forall k :: k in UserFields(out) ==>
            UserFields(out)[k] == match LastWith(payloads, k)
                                  case Some(i) => Spread(payloads[i])[k]
                                  case None => UserFields(state)[k])
      && out.Keys == (if payloads == [] then state.Keys else state.Keys + {"user"})
      && (forall k :: k in state && k != "user" ==> out[k] == state[k])
    decreases |payloads|
  {
    if payloads != [] {
      var n := |payloads| - 1;
      var init := payloads[..n];
      assert payloads == init + [payloads[n]];
      assert Updates(payloads) == Updates(init) + [UpdateUser(payloads[n])];
      ReplayUpdates(state, init);
      ReplayAppend(Obj(state), Updates(init), [UpdateUser(payloads[n])]);
      var mid := Replay(Obj(state), Updates(init)).value;
      assert Replay(mid, [UpdateUser(payloads[n])]) == AuthReducer(mid, UpdateUser(payloads[n]));
      assert UpdatedUser(mid, payloads[n], AuthReducer(mid, UpdateUser(payloads[n])));
      var out := AuthReducer(mid, UpdateUser(payloads[n])).value.props;
      forall k | k in UserFields(out)
        ensures UserFields(out)[k] == match LastWith(payloads, k)
                                      case Some(i) => Spread(payloads[i])[k]
                                      case None => UserFields(state)[k]
      {
        if k !in Spread(payloads[n]) {
          assert LastWith(payloads, k) == LastWith(init, k);
        }
      }
    }
  }

  // ---------------------------------------------------------------------
  // The slice reducers: `createSlice` hands them an Immer draft of the
  // state, and they assign its `user` property in place.

  class AuthSlice {
    var user: Value

    /** The slice starts from `initialState`. */
    constructor ()
      ensures State() == InitialState
    {
      user := Bool(false);
    }

    /** The state object the draft stands for. */
    function State(): map<string, Value>
      reads this
    {
      map["user" := user]
    }

    /** `login`: the user becomes the action's payload, whatever it was. */
    method Login(payload: Value)
      modifies this
      ensures user == payload
      ensures UserOf(State()) == payload
    {
      user := payload;
    }

    /** `logout`: the user becomes `null`, whatever it was. */
    method Logout()
      modifies this
      ensures user == Null
      ensures UserOf(State()) == Null
    {
      user := Null;
    }
  }

  /** Two logins in a row leave the second payload, whatever came before. */
  method LoginTwice(slice: AuthSlice, first: Value, second: Value)
    modifies slice
    ensures slice.user == second
  {
    slice.Login(first);
    slice.Login(second);
  }

  /** Logging out twice leaves the slice as logging out once does. */
  method LogoutTwice(slice: AuthSlice)
    modifies slice
    ensures slice.user == Null
  {
    slice.Logout();
    slice.Logout();
  }

  /**
    The two logouts do not agree: after any history, the slice's `logout`
    leaves the user `null`, while `authReducer`'s LOGOUT leaves it `false`.
   */
  method LogoutsDisagree(payload: Value, state: Value, logout: Value)
    returns (sliceUser: Value, reducerUser: Value)
    requires HasType(logout, LogoutType)
    ensures sliceUser == Null && reducerUser == Bool(false)
    ensures sliceUser != reducerUser
  {
    var slice := new AuthSlice();
    slice.Login(payload);
    slice.Logout();
    sliceUser := slice.user;
    var next := AuthReducer(state, logout).value;
    reducerUser := Property(next, "user").value;
  }
}
