/** The landing page's form posted to the RSVP function: what the function
    receives from `JSON.stringify(formData)` and what the page makes of the
    answer. */
module Wiring {
  import opened Wrappers
  import IndexPage
  import RsvpHandler

  /** The form's tags as a JSON array of strings. */
  function Tags(tags: seq<string>): (r: seq<RsvpHandler.Value>)
    ensures |r| == |tags|
    ensures forall i :: 0 <= i < |tags| ==> r[i] == RsvpHandler.Str(tags[i])
  {
    if tags == [] then [] else [RsvpHandler.Str(tags[0])] + Tags(tags[1..])
  }

  /** The JSON object the function decodes from the serialised form record:
      its seven keys, and no `email`. */
  function Serialise(f: IndexPage.FormData): map<string, RsvpHandler.Value> {
    map[
      "name" := RsvpHandler.Str(f.name),
      "phone" := RsvpHandler.Str(f.phone),
      "attendance" := RsvpHandler.Str(f.attendance),
      "guestsCount" := RsvpHandler.Str(f.guestsCount),
      "dietaryRestrictions" := RsvpHandler.Arr(Tags(f.dietaryRestrictions)),
      "otherDietary" := RsvpHandler.Str(f.otherDietary),
      "message" := RsvpHandler.Str(f.message)]
  }

  /** The POST `handleSubmit` sends. */
  function SubmitEvent(f: IndexPage.FormData): RsvpHandler.Event {
    RsvpHandler.Event(Some("POST"), map["Content-Type" := "application/json"],
                      RsvpHandler.Parsed(RsvpHandler.Obj(Serialise(f))))
  }

  /** How the page reads the function's answer: `response.ok` is a 2xx status
      and `data.success` is only set on a saved answer. An empty body, or an
      exception escaping the function, gives no JSON for `response.json()` to
      read, which the page sees as a throw. */
  function ToSubmitReply(reply: RsvpHandler.Reply): IndexPage.SubmitReply {
    match reply
    case Raised => IndexPage.Threw
    case Reply(status, body) =>
      if body.NoContent? then IndexPage.Threw
      else IndexPage.Answered(200 <= status < 300, body.Saved?)
  }

  /** Whatever the guest typed, the function refuses the form: the form has no
      `email` field and the function requires one. With a database configured
      the answer is the 400 for missing fields, without one the 500; nothing
      is stored and the page never sees a confirmation. */
  lemma EveryFormSubmissionRejected(f: IndexPage.FormData, env: RsvpHandler.Env, insertOk: bool, table: seq<RsvpHandler.Row>,
                                    nextId: int, now: int, iso: int -> string)
    ensures var event := SubmitEvent(f);
      && RsvpHandler.Stored(event, env, insertOk, table, nextId, now) == table
      && RsvpHandler.Respond(event, env, insertOk, table, nextId, iso)
         == (if RsvpHandler.HasDatabase(env) then RsvpHandler.Reply(400, RsvpHandler.Failure(RsvpHandler.MissingFields))
             else RsvpHandler.Reply(500, RsvpHandler.Failure(RsvpHandler.NoDatabase)))
      && !IndexPage.Confirmed(ToSubmitReply(RsvpHandler.Respond(event, env, insertOk, table, nextId, iso)))
  {
    var event := SubmitEvent(f);
    FormBodyRejected(f);
    assert RsvpHandler.BodyObject(event) == Some(Serialise(f));
    assert RsvpHandler.PostCheckOf(event) == RsvpHandler.Rejected(RsvpHandler.MissingFields);
    assert RsvpHandler.MethodOf(event) == "POST";
  }

  /** The decoded form body has no `email` key and only strings where the
      function strips, so it reaches the required-field check and fails it. */
  lemma FormBodyRejected(f: IndexPage.FormData)
    ensures RsvpHandler.CheckPost(Serialise(f)) == RsvpHandler.Rejected(RsvpHandler.MissingFields)
  {
    var body := Serialise(f);
    assert "email" !in body.Keys;
    RsvpHandler.NoEmailRejected(body);
    assert body["name"].Str? && body["phone"].Str? && body["attendance"].Str?;
    assert body["otherDietary"].Str? && body["message"].Str?;
  }

  /** A whole submission, from the click to the notification: the function
      handles the serialised record and the page reacts to its answer. The
      table, the next id, the form and the timer are left as they were and the
      page reports a failure. */
  method SubmitForm(page: IndexPage.Page, backend: RsvpHandler.RsvpFunction, env: RsvpHandler.Env,
                    insertOk: bool, now: int, iso: int -> string)
      returns (notice: IndexPage.SubmitNotice)
    requires backend.Valid()
    modifies page`formData, backend
    ensures backend.Valid()
    ensures page.formData == old(page.formData)
    ensures backend.table == old(backend.table) && backend.nextId == old(backend.nextId)
    ensures notice == IndexPage.SendFailed
  {
    var reply := backend.Handle(SubmitEvent(page.formData), env, insertOk, now, iso);
    EveryFormSubmissionRejected(page.formData, env, insertOk, old(backend.table), old(backend.nextId), now, iso);
    notice := page.HandleSubmit(ToSubmitReply(reply));
  }
}
