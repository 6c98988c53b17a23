/** The admin viewer (src/pages/Admin.tsx): the aggregates over the stored
    responses, the dietary label renderer and the login/logout session. */
module AdminPage {
  import opened Wrappers

  /** One stored RSVP as the viewer receives it. `guestsCount` and
      `dietaryRestrictions` may be `null` (None); a `null` `other_dietary` is
      read as "" (both are falsy, which is all the viewer asks of it). */
  datatype RsvpResponse = RsvpResponse(
    id: int,
    name: string,
    email: string,
    phone: string,
    attendance: string,
    guestsCount: Option<int>,
    dietaryRestrictions: Option<seq<string>>,
    otherDietary: string,
    message: string,
    createdAt: string)

  // ---------------------------------------------------------------------------
  // Aggregates
  // ---------------------------------------------------------------------------

  /** `responses.filter(r => r.attendance === answer)`. */
  function WithAnswer(rs: seq<RsvpResponse>, answer: string): (r: seq<RsvpResponse>)
    ensures |r| <= |rs|
    ensures forall x :: x in r <==> x in rs && x.attendance == answer
  {
    if rs == [] then []
    else if rs[0].attendance == answer then [rs[0]] + WithAnswer(rs[1..], answer)
    else WithAnswer(rs[1..], answer)
  }

  /** The "attending" tile. */
  function YesCount(rs: seq<RsvpResponse>): nat {
    |WithAnswer(rs, "yes")|
  }

  /** The "declining" tile. */
  function NoCount(rs: seq<RsvpResponse>): nat {
    |WithAnswer(rs, "no")|
  }

  /** `r.guests_count || 1`: a zero or missing count is read as one guest. */
  function GuestsOf(r: RsvpResponse): int {
    if r.guestsCount.None? || r.guestsCount.value == 0 then 1 else r.guestsCount.value
  }

  /** `.reduce((sum, r) => sum + (r.guests_count || 1), 0)`. */
  function SumGuests(rs: seq<RsvpResponse>): int {
    if rs == [] then 0 else SumGuests(rs[..|rs| - 1]) + GuestsOf(rs[|rs| - 1])
  }

  /** The "total guests (including +1)" tile. */
  function TotalGuests(rs: seq<RsvpResponse>): int {
    SumGuests(WithAnswer(rs, "yes"))
  }

  predicate Decided(r: RsvpResponse) {
    r.attendance == "yes" || r.attendance == "no"
  }

  lemma {:induction false} WithAnswerAppend(a: seq<RsvpResponse>, b: seq<RsvpResponse>, answer: string)
    ensures WithAnswer(a + b, answer) == WithAnswer(a, answer) + WithAnswer(b, answer)
  {
    if a == [] {
      assert a + b == b;
    } else {
      assert (a + b)[1..] == a[1..] + b;
      WithAnswerAppend(a[1..], b, answer);
    }
  }

  lemma {:induction false} SumGuestsAppend(a: seq<RsvpResponse>, b: seq<RsvpResponse>)
    ensures SumGuests(a + b) == SumGuests(a) + SumGuests(b)
  {
    if b != [] {
      var c := a + b;
      assert c[..|c| - 1] == a + b[..|b| - 1];
      SumGuestsAppend(a, b[..|b| - 1]);
    } else {
      assert a + b == a;
    }
  }

  /** Every response is counted at most once, and exactly once when every
      attendance value is "yes" or "no". */
  lemma {:induction false} CountsCoverResponses(rs: seq<RsvpResponse>)
    ensures YesCount(rs) + NoCount(rs) <= |rs|
    ensures YesCount(rs) + NoCount(rs) == |rs| <==> forall r :: r in rs ==> Decided(r)
  {
    if rs != [] {
      var tail := rs[1..];
      CountsCoverResponses(tail);
      assert YesCount(rs) == YesCount(tail) + (if rs[0].attendance == "yes" then 1 else 0);
      assert NoCount(rs) == NoCount(tail) + (if rs[0].attendance == "no" then 1 else 0);
      assert rs == [rs[0]] + tail;
      assert (forall r :: r in rs ==> Decided(r))
         <==> Decided(rs[0]) && (forall r :: r in tail ==> Decided(r));
    }
  }

  /** Appending a response adds its guests exactly when it is attending. */
  lemma TotalGuestsSnoc(rs: seq<RsvpResponse>, r: RsvpResponse)
    ensures TotalGuests(rs + [r]) == TotalGuests(rs) + (if r.attendance == "yes" then GuestsOf(r) else 0)
  {
    WithAnswerAppend(rs, [r], "yes");
    SumGuestsAppend(WithAnswer(rs, "yes"), WithAnswer([r], "yes"));
    if r.attendance == "yes" {
      assert SumGuests([r]) == GuestsOf(r) by {
        assert [r][..0] == [];
      }
    }
  }

  /** A response that is not attending contributes nothing, whatever guest
      count it carries: replacing it by another non-attending response leaves
      the total unchanged. */
  lemma TotalGuestsIgnoresOthers(rs: seq<RsvpResponse>, i: nat, r: RsvpResponse)
    requires i < |rs| && rs[i].attendance != "yes" && r.attendance != "yes"
    ensures TotalGuests(rs[i := r]) == TotalGuests(rs)
  {
    var pre, post := rs[..i], rs[i + 1..];
    assert rs == pre + [rs[i]] + post;
    assert rs[i := r] == pre + [r] + post;
    WithAnswerAppend(pre + [rs[i]], post, "yes");
    WithAnswerAppend(pre, [rs[i]], "yes");
    WithAnswerAppend(pre + [r], post, "yes");
    WithAnswerAppend(pre, [r], "yes");
    assert WithAnswer(pre + [rs[i]] + post, "yes") == WithAnswer(pre + [r] + post, "yes");
  }

  /** With non-negative guest counts every attending response brings at least
      one guest. */
  lemma TotalGuestsAtLeastYesCount(rs: seq<RsvpResponse>)
    requires forall r :: r in rs && r.guestsCount.Some? ==> r.guestsCount.value >= 0
    ensures TotalGuests(rs) >= YesCount(rs)
  {
    SumAtLeastLength(WithAnswer(rs, "yes"));
  }

  lemma {:induction false} SumAtLeastLength(rs: seq<RsvpResponse>)
    requires forall r :: r in rs && r.guestsCount.Some? ==> r.guestsCount.value >= 0
    ensures SumGuests(rs) >= |rs|
  {
    if rs != [] {
      assert rs[|rs| - 1] in rs;
      forall r | r in rs[..|rs| - 1] ensures r in rs { }
      SumAtLeastLength(rs[..|rs| - 1]);
    }
  }

  function Sample(attendance: string, guests: int): RsvpResponse {
    RsvpResponse(0, "", "", "", attendance, Some(guests), None, "", "", "")
  }

  /** Two attending (two guests and one), one declining with five. */
  lemma AggregatesExample()
    ensures var rs := [Sample("yes", 2), Sample("no", 5), Sample("yes", 1)];
            YesCount(rs) == 2 && NoCount(rs) == 1 && TotalGuests(rs) == 3
  {
    var rs := [Sample("yes", 2), Sample("no", 5), Sample("yes", 1)];
    assert WithAnswer(rs, "yes") == [Sample("yes", 2), Sample("yes", 1)] by {
      assert rs[1..] == [Sample("no", 5), Sample("yes", 1)];
      assert rs[1..][1..] == [Sample("yes", 1)];
    }
    assert WithAnswer(rs, "no") == [Sample("no", 5)] by {
      assert rs[1..] == [Sample("no", 5), Sample("yes", 1)];
      assert rs[1..][1..] == [Sample("yes", 1)];
    }
    assert [Sample("yes", 2), Sample("yes", 1)][..1] == [Sample("yes", 2)];
    assert [Sample("yes", 2)][..0] == [];
  }

  // ---------------------------------------------------------------------------
  // Dietary labels
  // ---------------------------------------------------------------------------

  const NoRestrictions := "Нет ограничений"

  /** The fixed label table. */
  const Labels: map<string, string> := map[
    "vegetarian" := "Вегетарианское меню",
    "vegan" := "Веганское меню",
    "gluten-free" := "Без глютена",
    "lactose-free" := "Без лактозы",
    "allergies" := "Аллергии"]

  /** `labels[r] || r`: every label is non-empty, so the fallback is used
      exactly for the tags outside the table. */
  function Label(tag: string): string {
    if tag in Labels && Labels[tag] != "" then Labels[tag] else tag
  }

  /** `.join(', ')`. */
  function Join(items: seq<string>): string {
    if items == [] then ""
    else if |items| == 1 then items[0]
    else Join(items[..|items| - 1]) + ", " + items[|items| - 1]
  }

  function MapLabels(tags: seq<string>): (r: seq<string>)
    ensures |r| == |tags|
    ensures forall i :: 0 <= i < |tags| ==> r[i] == Label(tags[i])
  {
    if tags == [] then [] else MapLabels(tags[..|tags| - 1]) + [Label(tags[|tags| - 1])]
  }

  /** `getDietaryText(restrictions, other)`. */
  function DietaryText(restrictions: Option<seq<string>>, other: string): string {
    if restrictions.None? || |restrictions.value| == 0 then NoRestrictions
    else
      var items := Join(MapLabels(restrictions.value));
      if other != "" then items + " (" + other + ")" else items
  }

  /** Known tags get their label; every other tag, the form's "meat" and
      "fish" among them, is shown verbatim. */
  lemma LabelFallback(tag: string)
    ensures tag in Labels ==> Label(tag) == Labels[tag] && Label(tag) != tag
    ensures tag !in Labels ==> Label(tag) == tag
    ensures Label("meat") == "meat" && Label("fish") == "fish"
  {
  }

  /** No tags at all: the fixed label, whatever the free text says. */
  lemma DietaryTextEmpty(other: string)
    ensures DietaryText(None, other) == NoRestrictions
    ensures DietaryText(Some([]), other) == NoRestrictions
  {
  }

  /** One tag: its label, with the free text in parentheses when there is any. */
  lemma DietaryTextSingle(tag: string, other: string)
    ensures DietaryText(Some([tag]), other)
         == if other == "" then Label(tag) else Label(tag) + " (" + other + ")"
  {
    assert MapLabels([tag]) == [Label(tag)];
  }

  /** Labels appear in input order: one more tag at the end adds ", " and its
      label at the end of the list of labels. */
  lemma DietaryTextSnoc(tags: seq<string>, tag: string, other: string)
    requires tags != []
    ensures DietaryText(Some(tags + [tag]), other)
         == var items := Join(MapLabels(tags)) + ", " + Label(tag);
            if other == "" then items else items + " (" + other + ")"
  {
    var ts := tags + [tag];
    assert ts[..|ts| - 1] == tags;
    var ls := MapLabels(ts);
    assert ls[..|ls| - 1] == MapLabels(tags);
  }

  /** With at least one tag, the free text only ever adds a parenthesised suffix. */
  lemma DietaryTextSuffix(tags: seq<string>, other: string)
    requires tags != []
    ensures DietaryText(Some(tags), other)
         == DietaryText(Some(tags), "") + (if other == "" then "" else " (" + other + ")")
  {
  }

  // ---------------------------------------------------------------------------
  // Session
  // ---------------------------------------------------------------------------

  /** What came back from a GET with the key header: a reply whose status is
      or is not in the 2xx range and whose JSON body may carry a `responses`
      list, or an exception. */
  datatype FetchReply = Replied(ok: bool, responses: Option<seq<RsvpResponse>>) | Threw

  /** The viewer opens only on an OK reply that carries a list (an empty list
      is truthy too). */
  predicate Granted(reply: FetchReply) {
    reply.Replied? && reply.ok && reply.responses.Some?
  }

  /** The notification shown after a manual login. */
  datatype LoginNotice = Welcome | InvalidKey | ConnectionFailed

  /** `!savedKey`: no key at all, or an empty one. */
  predicate HasSavedKey(stored: Option<string>) {
    stored.Some? && stored.value != ""
  }

  /** The viewer's state slots and the persisted `adminKey` storage entry. */
  class Session {
    var adminKey: string
    var isAuthenticated: bool
    var responses: seq<RsvpResponse>
    var loading: bool
    var storedKey: Option<string>

    /** First render, with whatever key an earlier session persisted. */
    constructor (persisted: Option<string>)
      ensures adminKey == "" && !isAuthenticated && responses == [] && !loading
      ensures storedKey == persisted
    {
      adminKey := "";
      isAuthenticated := false;
      responses := [];
      loading := false;
      storedKey := persisted;
    }

    /** Typing into the key field. */
    method TypeKey(key: string)
      modifies this`adminKey
      ensures adminKey == key
    {
      adminKey := key;
    }

    /** `handleLogin`, given the function's answer to a GET carrying
        `adminKey`: open the viewer and persist the key on success; keep
        everything on either failure; `loading` is cleared in every case. */
    method HandleLogin(reply: FetchReply) returns (notice: LoginNotice)
      modifies this
      ensures !loading && adminKey == old(adminKey)
      ensures Granted(reply) ==>
        && isAuthenticated
        && responses == reply.responses.value
        && storedKey == Some(old(adminKey))
        && notice == Welcome
      ensures !Granted(reply) ==>
        && isAuthenticated == old(isAuthenticated)
        && responses == old(responses)
        && storedKey == old(storedKey)
      ensures reply.Replied? && !Granted(reply) ==> notice == InvalidKey
      ensures reply.Threw? ==> notice == ConnectionFailed
    {
      loading := true;
      match reply {
        case Threw =>
          notice := ConnectionFailed;
        case Replied(ok, list) =>
          if ok && list.Some? {
            isAuthenticated := true;
            responses := list.value;
            storedKey := Some(adminKey);
            notice := Welcome;
          } else {
            notice := InvalidKey;
          }
      }
      loading := false;
    }

    /** `loadResponses`: the silent attempt with the persisted key, run on
        first render and by the refresh button. Returns the key it sent, or
        None when no request was made; the reply is the function's
        answer to that request. No notification in any case. */
    method LoadResponses(reply: FetchReply) returns (sent: Option<string>)
      modifies this
      ensures sent == (if HasSavedKey(old(storedKey)) then old(storedKey) else None)
      ensures storedKey == old(storedKey) && loading == old(loading)
      ensures if sent.Some? && Granted(reply) then
                && responses == reply.responses.value
                && isAuthenticated
                && adminKey == sent.value
              else
                && responses == old(responses)
                && isAuthenticated == old(isAuthenticated)
                && adminKey == old(adminKey)
    {
      if !HasSavedKey(storedKey) {
        return None;
      }
      var savedKey := storedKey.value;
      sent := Some(savedKey);
      if reply.Replied? && reply.ok && reply.responses.Some? {
        responses := reply.responses.value;
        isAuthenticated := true;
        adminKey := savedKey;
      }
    }

    /** `handleLogout`: back to the login view with nothing remembered. */
    method HandleLogout()
      modifies this
      ensures !isAuthenticated && adminKey == "" && responses == [] && storedKey == None
      ensures loading == old(loading)
    {
      isAuthenticated := false;
      adminKey := "";
      responses := [];
      storedKey := None;
    }
  }
}
