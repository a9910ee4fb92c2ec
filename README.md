# Auth store of a single-page sign-in application, in Dafny

This project models the client-side auth store of a small web application
whose users register, sign in, sign out and edit their profile through an
external identity provider. The store lives in `src/store/auth.js`. Its
state is an object with one slot, `user`, which holds one of three kinds of value:

- `false` before anything is known (`initialState`);
- `null` once signed out;
- a user record once signed in.

Two sets of transitions act on that slot:

- the slice reducers `login` and `logout`, which assign `state.user` in
  place on a draft of the state. They are modelled as the methods of the
  class `AuthStore.AuthSlice`, which holds a `user` field;
- the standalone `authReducer` and its action creator `updateUser`, which
  build new objects with object spread. They are modelled as the functions
  `AuthStore.AuthReducer` and `AuthStore.UpdateUser`.

The auth-state listener in `src/firebase.js` feeds the slice. When the
provider reports a user, the listener logs in a three-field projection of
that user. Otherwise it logs out. This is `AuthListener.OnAuthStateChanged`.

Values are JavaScript values (`JsValues.Value`): `undefined`, `null`,
booleans, numbers, strings, arrays and objects. Object spread is
`JsValues.Spread`. It copies an object's own properties, and the elements
of an array or the characters of a string under their decimal index keys.
It copies nothing for `undefined`, `null`, booleans or numbers. A property
read is `JsValues.Property`, which raises a `TypeError` on `null` and
`undefined`. So the model keeps the reducer's exceptions: a `null` or
`undefined` action, and `UPDATE_USER` on a `null` state.

Properties that relate several dispatches are stated over `AuthStore.Replay`.
It applies `authReducer` to a sequence of actions in turn within one
synchronous chain, as `actions.reduce(authReducer, state)` would, and stops
at the first exception. A Redux store differs across separate events: when
its reducer throws it keeps its previous state, and later dispatches go on
from there.

`src/store/index.js:2-3` imports the slice's default export under both
names and installs it for both the `theme` and the `auth` slot. So
`authReducer` is never installed in the running store, and the
`UPDATE_USER` action dispatched at `src/component/UpdateProfile.js:54`
never reaches it. The model states what `authReducer` does when it is
called. It makes no claim that `UPDATE_USER` changes the live store.

The slice's `logout`, which the auth-state listener (`src/firebase.js:111`)
and the Home page (`src/pages/Home.js:27`) dispatch, clears the user to
`null`. `authReducer` instead resets to `initialState` on `LOGOUT`, where the
user is `false`. `AuthStore.LogoutsDisagree` states the difference.

## Model

| member | source | states |
|---|---|---|
| `AuthStore.NoStateIsInitialState` | src/store/auth.js:3-23 | `initialState` holds `user = false`; `authReducer` called with no state behaves exactly as when called with `initialState` |
| `AuthStore.Effective` | src/store/auth.js:23 | the default parameter: an `undefined` state becomes `initialState`, any other state is used as given |
| `AuthStore.UpdateUser` | src/store/auth.js:19-22 | `updateUser(d)` is an action with exactly the keys `type` and `payload`, whose type is `"UPDATE_USER"` and whose payload is `d` unchanged |
| `AuthStore.AuthReducer` | src/store/auth.js:23-35 | throws exactly when the action is `null`/`undefined` or it is `UPDATE_USER` on a `null` state; `LOGOUT` gives `initialState`; any other type gives back the (defaulted) state; `UPDATE_USER` gives a user holding exactly the old user's keys and the payload's keys, where payload keys take the payload's value and the rest keep their old value, and every other top-level key is copied unchanged; a result is never `undefined` |
| `AuthStore.UpdateOntoNoUser` | src/store/auth.js:26-29 | when `user` is `false`, `null` or absent, `UPDATE_USER` makes the user exactly the payload's fields (the payload itself when it is an object) and keeps the rest of the state |
| `AuthStore.UpdateUserIdempotent` | src/store/auth.js:26-29 | dispatching the same `UPDATE_USER` a second time leaves the state as the first dispatch left it |
| `AuthStore.LogoutIdempotent` | src/store/auth.js:30-31 | `LOGOUT` never throws, and `LOGOUT` twice gives the same state as `LOGOUT` once |
| `AuthStore.ReplayAppend` | src/store/auth.js:23-35 | dispatching one sequence of actions and then another is dispatching their concatenation |
| `AuthStore.ReplayLogoutForgets` | src/store/auth.js:30-31 | after any history that did not throw, the state after a `LOGOUT` and further actions is the state those further actions produce from `initialState`; after a history that threw, the whole sequence throws |
| `AuthStore.ReplayIgnoresOtherActions` | src/store/auth.js:32-33 | once the state is set, dropping every action whose type is neither `UPDATE_USER` nor `LOGOUT` does not change the outcome of a sequence |
| `AuthStore.ReplayUpdates` | src/store/auth.js:26-29 | over any run of `UPDATE_USER` dispatches on a state object: a user key is present exactly when the old user or some payload has it; its value is the last payload's value that has it, or else its old value; the top-level keys other than `user` are kept with their values |
| `AuthStore.AuthSlice.constructor` | src/store/auth.js:7-9 | the slice starts from `initialState` |
| `AuthStore.AuthSlice.Login` | src/store/auth.js:11-13 | `login` replaces the user with the payload exactly, whatever it held |
| `AuthStore.AuthSlice.Logout` | src/store/auth.js:14-16 | `logout` sets the user to `null` from any state |
| `AuthStore.LoginTwice` | src/store/auth.js:11-13 | two logins in a row leave the second payload |
| `AuthStore.LogoutTwice` | src/store/auth.js:14-16 | `logout` twice leaves the user `null`, as `logout` once does |
| `AuthStore.LogoutsDisagree` | src/store/auth.js:14-31 | after a login, the slice's `logout` leaves the user `null`, while `authReducer`'s `LOGOUT` leaves it `false` from any state; the two differ |
| `JsValues.Spread` | src/store/auth.js:27-28 | spreading `undefined`, `null`, a boolean or a number contributes no key; spreading an object contributes its own properties |
| `JsValues.SpreadArray` | src/store/auth.js:27-28 | spreading an array contributes exactly the decimal index keys of its positions, as many as it has elements, each with the element there |
| `JsValues.SpreadString` | src/store/auth.js:27-28 | spreading a string contributes exactly the decimal index keys of its positions, as many as it has characters, each with the one-character string there |
| `JsValues.SpreadMerge` | src/store/auth.js:28 | `{...a, ...b}` has the keys of both; b's value wins where b has the key, a's value is kept elsewhere; over a key-less `a` it is exactly b's spread |
| `JsValues.Property` | src/store/auth.js:24-28 | `v.key` throws a `TypeError` exactly when `v` is `null` or `undefined`, reads an object's own property (`undefined` when absent), and is `undefined` on booleans and numbers |
| `JsValues.IndexKeyInjective` | src/store/auth.js:28 | the decimal keys under which a spread stores array elements and string characters are distinct for distinct indices |
| `AuthListener.Projection` | src/firebase.js:104-108 | the login payload has exactly the keys `uid`, `email` and `displayName`, each the provider user's property of that name |
| `AuthListener.OnAuthStateChanged` | src/firebase.js:101-113 | a present (truthy) provider user logs in its projection; an absent one logs the slice out to `null` |
| `AuthListener.NotifiedState` | src/firebase.js:101-113 | after one notification the user is a record exactly when the provider reported a user, it is never `false`, and its `uid` is the provider's |

## Left out

- The identity-provider wrappers in `src/firebase.js` (register, login, logout, password reset, email verification, profile update) are left out. They are asynchronous network calls with toast side effects. Only the auth-state listener's effect on the store is modelled, and the subscription itself is not.
- Redux Toolkit internals are left out. This covers how `createSlice` generates the action types `auth/login` and `auth/logout`, and how the slice's combined reducer picks `login` or `logout` from them and ignores every other type. It also covers how `configureStore` composes the `theme` and `auth` slots. The slice reducers are modelled directly as the methods they dispatch to.
- AuthStore.AuthSlice: the draft is a class whose `user` field is assigned. Copy-on-write, structural sharing and freezing of the resulting state are not modelled.
- AuthStore.AuthReducer: object identity is not modelled. The source returns the shared `initialState` object on `LOGOUT` and the very same state object on other actions; the model compares values.
- JsValues.Value: JavaScript objects keep their keys in insertion order, and the model's maps are unordered. Numbers are unbounded integers rather than IEEE doubles.
- JsValues.Property: reads only own properties and the `length` of arrays and strings. Inherited properties of the prototype chain, getters and symbol keys are not modelled.
- JsValues.Spread: string characters are Unicode scalar values, not UTF-16 code units.
- The form validation schemas, the dark-mode toggle with its `localStorage` persistence, the submit handlers with their error-code alerts, routing and all rendering are left out. They are UI glue and library behaviour.
