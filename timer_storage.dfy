/**
 * The per-user start-time store kept in the browser's local storage, one
 * entry per user code under the key "timerStartTime_" + code. The stored text
 * is an ISO timestamp with millisecond precision; the model stores the
 * instant it denotes, in milliseconds.
 */
module TimerStorage {
  import opened Wrappers

  const KeyPrefix: string := "timerStartTime_"

  function Key(userCode: string): (k: string)
    ensures |k| == |KeyPrefix| + |userCode|
    ensures k[..|KeyPrefix|] == KeyPrefix && k[|KeyPrefix|..] == userCode
  {
    KeyPrefix + userCode
  }

  /** Distinct user codes never share an entry. */
  lemma KeyInjective(a: string, b: string)
    ensures Key(a) == Key(b) <==> a == b
  {
    if Key(a) == Key(b) {
      assert a == Key(a)[|KeyPrefix|..];
    }
  }

  /** What `getStartTime(userCode)` reads from a given storage content. */
  function Lookup(items: map<string, int>, userCode: string): (r: Option<int>)
    ensures r.Some? <==> Key(userCode) in items
    ensures r.Some? ==> r.value == items[Key(userCode)]
  {
    if Key(userCode) in items then Some(items[Key(userCode)]) else None
  }

  /** The browser's key/value store, holding these entries among any others. */
  class LocalStorage {
    var items: map<string, int>

    constructor (initial: map<string, int>)
      ensures items == initial
    {
      items := initial;
    }

    /** `saveStartTime`: `localStorage.setItem(key, startTime.toISOString())` */
    method SaveStartTime(userCode: string, startTime: int)
      modifies this
      ensures items == old(items)[Key(userCode) := startTime]
    {
      items := items[Key(userCode) := startTime];
    }

    /** `getStartTime`: the saved instant, or `None` (null) when there is no entry. */
    method GetStartTime(userCode: string) returns (r: Option<int>)
      ensures r == Lookup(items, userCode)
    {
      var key := Key(userCode);
      if key in items {
        r := Some(items[key]);
      } else {
        r := None;
      }
    }

    /** `clearStartTime`: `localStorage.removeItem(key)`, harmless when absent. */
    method ClearStartTime(userCode: string)
      modifies this
      ensures items == old(items) - {Key(userCode)}
    {
      items := items - {Key(userCode)};
    }
  }

  /** Saving then reading returns the saved instant; saving again overwrites. */
  lemma SaveThenGet(items: map<string, int>, userCode: string, t1: int, t2: int)
    ensures Lookup(items[Key(userCode) := t1], userCode) == Some(t1)
    ensures Lookup(items[Key(userCode) := t1][Key(userCode) := t2], userCode) == Some(t2)
  {
  }

  /** After clearing there is no entry; clearing twice is the same as once. */
  lemma ClearThenGet(items: map<string, int>, userCode: string)
    ensures Lookup(items - {Key(userCode)}, userCode) == None
    ensures (items - {Key(userCode)}) - {Key(userCode)} == items - {Key(userCode)}
  {
  }

  /** Saving or clearing one user's entry leaves every other user's entry as it was. */
  lemma OtherUsersUntouched(items: map<string, int>, userCode: string, other: string, t: int)
    requires other != userCode
    ensures Lookup(items[Key(userCode) := t], other) == Lookup(items, other)
    ensures Lookup(items - {Key(userCode)}, other) == Lookup(items, other)
  {
    KeyInjective(userCode, other);
  }
}
