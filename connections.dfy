/** The Connection Center page (public/pages/connect.tsx): saved GitHub token connections, the
    optimistic edits of their list with rollback, and the two display helpers. Every request is
    reduced to its outcome, passed in as a parameter. */
module Connections {
  import opened Wrappers
  import opened JsText
  import JsArray

  datatype GithubUser = GithubUser(login: string, name: Option<string>, avatar: Option<string>)

  /** A saved connection as the server lists it; `isDefault` is its optional `default` flag. */
  datatype ConnectionItem = ConnectionItem(
    id: string,
    alias: string,
    isDefault: Option<bool>,
    user: Option<GithubUser>,
    tokenPrefix: Option<string>,
    createdAt: string,
    updatedAt: Option<string>)

  datatype TokenType = Classic | FineGrained

  /** The server's verdict on a token under test. */
  datatype TestResult = TestResult(
    ok: bool,
    user: Option<GithubUser>,
    scopes: Option<seq<string>>,
    tokenType: Option<TokenType>,
    error: Option<string>)

  /** The page tests `default` for truthiness. */
  predicate IsFlaggedDefault(c: ConnectionItem) {
    c.isDefault == Some(true)
  }

  /** The optimistic step of `setDefault(id)`: every item gets an explicit flag, true exactly for `id`. */
  function MarkDefault(items: seq<ConnectionItem>, id: string): seq<ConnectionItem> {
    seq(|items|, i requires 0 <= i < |items| => items[i].(isDefault := Some(items[i].id == id)))
  }

  /** After the optimistic step of `setDefault(id)` an item is flagged exactly when its id is `id`;
      length, order and every other field are unchanged. */
  lemma MarkDefaultFlags(items: seq<ConnectionItem>, id: string)
    ensures |MarkDefault(items, id)| == |items|
    ensures forall i :: 0 <= i < |items| ==>
      (IsFlaggedDefault(MarkDefault(items, id)[i]) <==> items[i].id == id)
    ensures forall i :: 0 <= i < |items| ==>
      MarkDefault(items, id)[i].(isDefault := items[i].isDefault) == items[i]
  {
  }

  /** With distinct ids, exactly one item is flagged after `setDefault(id)` when `id` is listed,
      and none when it is not. */
  lemma {:induction false} MarkDefaultFlagsOne(items: seq<ConnectionItem>, id: string)
    requires JsArray.DistinctBy(items, (c: ConnectionItem) => c.id)
    ensures |FlaggedIndices(MarkDefault(items, id))| == if exists i :: 0 <= i < |items| && items[i].id == id then 1 else 0
  {
    var r := MarkDefault(items, id);
    var flagged := FlaggedIndices(r);
    if k :| 0 <= k < |items| && items[k].id == id {
      forall i | i in flagged ensures i == k {
        assert r[i].id == items[i].id == id;
      }
      assert flagged == {k};
    } else {
      assert flagged == {};
    }
  }

  /** The positions of the flagged items. */
  function FlaggedIndices(items: seq<ConnectionItem>): set<nat> {
    set i: nat | i < |items| && IsFlaggedDefault(items[i])
  }

  /** The optimistic step of `revoke(id)`. */
  function WithoutId(items: seq<ConnectionItem>, id: string): seq<ConnectionItem> {
    JsArray.Filter(items, (c: ConnectionItem) => c.id != id)
  }

  /** The optimistic step of `revoke(id)` removes every item with that id and keeps all others,
      in their relative order. */
  lemma RevokeKeepsOthers(items: seq<ConnectionItem>, id: string)
    ensures forall i :: 0 <= i < |WithoutId(items, id)| ==> WithoutId(items, id)[i].id != id
    ensures forall c :: c in WithoutId(items, id) <==> c in items && c.id != id
    ensures JsArray.IsSubsequence(WithoutId(items, id), items)
    ensures forall c :: multiset(WithoutId(items, id))[c] == if c.id != id then multiset(items)[c] else 0
  {
    var p := (c: ConnectionItem) => c.id != id;
    JsArray.FilterMultiset(items, p);
    forall c ensures c in WithoutId(items, id) <==> c in items && c.id != id {
      JsArray.FilterMembers(items, p, c);
    }
    JsArray.FilterIsSubsequence(items, p);
  }

  /** The successful step of `rotate(id)`: the matching items take the server's `updatedAt`. */
  function WithUpdatedAt(items: seq<ConnectionItem>, id: string, updatedAt: Option<string>): seq<ConnectionItem> {
    seq(|items|, i requires 0 <= i < |items| =>
      if items[i].id == id then items[i].(updatedAt := updatedAt) else items[i])
  }

  /** A successful rotation changes only `updatedAt`, and only on the items with the rotated id. */
  lemma RotateTouchesOnlyUpdatedAt(items: seq<ConnectionItem>, id: string, updatedAt: Option<string>)
    ensures |WithUpdatedAt(items, id, updatedAt)| == |items|
    ensures forall i :: 0 <= i < |items| ==>
      WithUpdatedAt(items, id, updatedAt)[i].(updatedAt := items[i].updatedAt) == items[i]
    ensures forall i :: 0 <= i < |items| && items[i].id == id ==>
      WithUpdatedAt(items, id, updatedAt)[i].updatedAt == updatedAt
    ensures forall i :: 0 <= i < |items| && items[i].id != id ==>
      WithUpdatedAt(items, id, updatedAt)[i] == items[i]
  {
  }

  /** `maskPrefix`: the token prefix as the list shows it. */
  function MaskPrefix(prefix: Option<string>): (r: string)
    ensures prefix == None || prefix == Some("") ==> r == "–"
    ensures prefix.Some? && prefix.value != "" ==>
      && StartsWith(r, "****")
      && |r| <= 8
      && |r| == 4 + (if |prefix.value| <= 4 then |prefix.value| else 4)
      && EndsWith(prefix.value, r[4..])
  {
    match prefix
    case None => "–"
    case Some(p) =>
      if p == "" then "–"
      else if |p| <= 4 then "****" + p
      else "****" + p[|p| - 4..]
  }

  /** The timestamp the "last change" column formats: `updatedAt || createdAt`. */
  function LastChange(c: ConnectionItem): string {
    match c.updatedAt
    case Some(u) => if u != "" then u else c.createdAt
    case None => c.createdAt
  }

  const MinuteMs := 60_000
  const HourMs := 3_600_000
  const DayMs := 86_400_000

  /** `formatAgo` applied to the milliseconds elapsed since the timestamp. `Math.floor` of a
      quotient by a positive constant is Dafny's `/`. */
  function FormatAgo(elapsed: int): string {
    var m := elapsed / MinuteMs;
    if m < 1 then "just now"
    else if m < 60 then DecimalString(m) + "m ago"
    else
      var h := m / 60;
      if h < 24 then DecimalString(h) + "h ago"
      else DecimalString(h / 24) + "d ago"
  }

  /** Flooring to minutes, then to hours, then to days is flooring straight to hours or days. */
  lemma NestedFloors(elapsed: int)
    requires elapsed >= 0
    ensures elapsed / MinuteMs / 60 == elapsed / HourMs
    ensures elapsed / MinuteMs / 60 / 24 == elapsed / DayMs
  {
    var m := elapsed / MinuteMs;
    var h := m / 60;
    var d := h / 24;
    assert elapsed == m * MinuteMs + elapsed % MinuteMs;
    assert m == h * 60 + m % 60;
    assert h == d * 24 + h % 24;
    assert elapsed == h * HourMs + (m % 60) * MinuteMs + elapsed % MinuteMs;
    assert elapsed == d * DayMs + (h % 24) * HourMs + (m % 60) * MinuteMs + elapsed % MinuteMs;
  }

  /** The four buckets of `formatAgo`, each showing the elapsed time floored to its unit; any
      elapsed time under one minute, negative ones too, is "just now". */
  lemma FormatAgoBuckets(elapsed: int)
    ensures elapsed < MinuteMs <==> FormatAgo(elapsed) == "just now"
    ensures MinuteMs <= elapsed < HourMs ==>
      FormatAgo(elapsed) == DecimalString(elapsed / MinuteMs) + "m ago"
    ensures HourMs <= elapsed < DayMs ==>
      FormatAgo(elapsed) == DecimalString(elapsed / HourMs) + "h ago"
    ensures DayMs <= elapsed ==>
      FormatAgo(elapsed) == DecimalString(elapsed / DayMs) + "d ago"
  {
    if elapsed >= 0 {
      NestedFloors(elapsed);
    }
    if elapsed >= MinuteMs {
      var r := FormatAgo(elapsed);
      assert r[|r| - 1] == 'o';
    }
  }

  /** The message shown when a token test fails without a server message ("test failed"). */
  const TestFailedMessage := "ทดสอบไม่สำเร็จ"

  /** The page's state: the `useState` fields of `GithubConnectionCenter`. */
  class ConnectionCenter {
    var loading: bool
    var items: seq<ConnectionItem>
    var alias: string
    var pat: string
    var testing: bool
    var testRes: Option<TestResult>
    var error: Option<string>
    var saving: bool
    var rotatingId: Option<string>
    var rotatePat: string

    constructor ()
      ensures loading && items == [] && alias == "" && pat == "" && !testing
      ensures testRes == None && error == None && !saving && rotatingId == None && rotatePat == ""
    {
      loading := true;
      items := [];
      alias := "";
      pat := "";
      testing := false;
      testRes := None;
      error := None;
      saving := false;
      rotatingId := None;
      rotatePat := "";
    }

    /** Typing the connection's alias. */
    method EditAlias(text: string)
      modifies this`alias
      ensures alias == text
    {
      alias := text;
    }

    /** Typing the token to test and save. */
    method EditPat(text: string)
      modifies this`pat
      ensures pat == text
    {
      pat := text;
    }

    /** Typing the new token in a row's rotation form. */
    method EditRotatePat(text: string)
      modifies this`rotatePat
      ensures rotatePat == text
    {
      rotatePat := text;
    }

    /** The mount effect: `items` from the listing (none listed is the empty list). */
    method Load(response: Response<Option<seq<ConnectionItem>>>)
      modifies this`items, this`error, this`loading
      ensures !loading
      ensures response.Answered? ==>
        && error == old(error)
        && items == (if response.value.Some? then response.value.value else [])
      ensures response.Failed? ==> items == old(items) && error == Some(response.message)
    {
      match response {
        case Answered(listed) =>
          items := if listed.Some? then listed.value else [];
        case Failed(message) =>
          error := Some(message);
      }
      loading := false;
    }

    /** "Test token" is enabled. */
    predicate TestEnabled()
      reads this
    {
      pat != "" && !testing
    }

    /** "Save connection" is enabled. */
    predicate SaveEnabled()
      reads this
    {
      Trim(alias) != "" && testRes.Some? && !saving
    }

    /** `handleTest`: a verdict is kept only when the server says the token is fine.
        `Answered(data)` is a 2xx answer with its decoded body. The page treats an error status
        like `!data.ok` and shows `data.error`, or the fallback message when that is absent or
        empty, so an error status is passed as `Failed` with that message. */
    method HandleTest(response: Response<TestResult>)
      modifies this`testing, this`error, this`testRes
      ensures !testing
      ensures response.Answered? && response.value.ok ==>
        testRes == Some(response.value) && error == None
      ensures response.Answered? && !response.value.ok ==>
        testRes == None &&
        error == Some(if response.value.error.Some? && response.value.error.value != ""
                      then response.value.error.value else TestFailedMessage)
      ensures response.Failed? ==> testRes == None && error == Some(response.message)
    {
      testing := true;
      error := None;
      testRes := None;
      match response {
        case Answered(data) =>
          if data.ok {
            testRes := Some(data);
          } else {
            error := Some(if data.error.Some? && data.error.value != "" then data.error.value else TestFailedMessage);
          }
        case Failed(message) =>
          error := Some(message);
      }
      testing := false;
    }

    /** `handleSave`: a saved connection goes to the front of the list and the form is cleared. */
    method HandleSave(response: Response<ConnectionItem>)
      modifies this`saving, this`error, this`items, this`alias, this`pat, this`testRes
      ensures !saving
      ensures response.Answered? ==>
        && items == [response.value] + old(items)
        && alias == "" && pat == "" && testRes == None && error == None
      ensures response.Failed? ==>
        && items == old(items) && alias == old(alias) && pat == old(pat)
        && testRes == old(testRes) && error == Some(response.message)
    {
      saving := true;
      error := None;
      match response {
        case Answered(saved) =>
          items := [saved] + items;
          alias := "";
          pat := "";
          testRes := None;
        case Failed(message) =>
          error := Some(message);
      }
      saving := false;
    }

    /** `setDefault(id)`: flag optimistically, and put the snapshot back if the request fails. */
    method SetDefault(id: string, accepted: bool)
      modifies this`items
      ensures items == if accepted then MarkDefault(old(items), id) else old(items)
    {
      var prev := items;
      items := MarkDefault(items, id);
      if !accepted {
        items := prev;
      }
    }

    /** `revoke(id)`: remove optimistically, and put the snapshot back if the request fails. */
    method Revoke(id: string, accepted: bool)
      modifies this`items
      ensures items == if accepted then WithoutId(old(items), id) else old(items)
    {
      var prev := items;
      items := WithoutId(items, id);
      if !accepted {
        items := prev;
      }
    }

    /** `rotate(id)`: nothing happens without a new token; on success only `updatedAt` of the
        rotated item changes and the rotation form closes; on failure the list stays. */
    method Rotate(id: string, response: Response<Option<string>>)
      modifies this`saving, this`items, this`rotatingId, this`rotatePat, this`error
      ensures old(rotatePat) == "" ==>
        && items == old(items) && rotatingId == old(rotatingId) && rotatePat == old(rotatePat)
        && error == old(error) && saving == old(saving)
      ensures old(rotatePat) != "" && response.Answered? ==>
        && items == WithUpdatedAt(old(items), id, response.value)
        && rotatingId == None && rotatePat == "" && error == old(error) && !saving
      ensures old(rotatePat) != "" && response.Failed? ==>
        && items == old(items) && rotatingId == old(rotatingId) && rotatePat == old(rotatePat)
        && error == Some(response.message) && !saving
    {
      if rotatePat == "" {
        return;
      }
      saving := true;
      match response {
        case Answered(updatedAt) =>
          items := WithUpdatedAt(items, id, updatedAt);
          rotatingId := None;
          rotatePat := "";
        case Failed(message) =>
          error := Some(message);
      }
      saving := false;
    }

    /** The "Rotate" button of a row opens its form, or closes it when it is already open. */
    method ToggleRotate(id: string)
      modifies this`rotatingId
      ensures rotatingId == if old(rotatingId) == Some(id) then None else Some(id)
    {
      rotatingId := if rotatingId == Some(id) then None else Some(id);
    }

    /** The "Cancel" button of the rotation form. */
    method CancelRotate()
      modifies this`rotatingId, this`rotatePat
      ensures rotatingId == None && rotatePat == ""
    {
      rotatingId := None;
      rotatePat := "";
    }
  }
}
