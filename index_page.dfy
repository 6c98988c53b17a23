/** The public landing page (src/pages/Index.tsx): the RSVP form record, the
    dietary-tag toggle, the outcome of a submission and the countdown to the
    wedding. */
module IndexPage {

  /** The form record `formData`: every control of the RSVP form. */
  datatype FormData = FormData(
    name: string,
    phone: string,
    attendance: string,
    guestsCount: string,
    dietaryRestrictions: seq<string>,
    otherDietary: string,
    message: string)

  /** The record the form starts with and returns to after a confirmed submission. */
  const InitialForm := FormData("", "", "", "1", [], "", "")

  // ---------------------------------------------------------------------------
  // Dietary tags
  // ---------------------------------------------------------------------------

  /** `list.filter(item => item !== value)`. */
  function Without(list: seq<string>, value: string): (r: seq<string>)
    ensures value !in r
    ensures forall x :: x in r <==> x in list && x != value
    ensures |r| <= |list|
  {
    if list == [] then []
    else if list[0] == value then Without(list[1..], value)
    else [list[0]] + Without(list[1..], value)
  }

  /** Filtering distributes over concatenation, so the elements that survive
      keep their relative order. */
  lemma {:induction false} WithoutAppend(a: seq<string>, b: seq<string>, value: string)
    ensures Without(a + b, value) == Without(a, value) + Without(b, value)
  {
    if a == [] {
      assert a + b == b;
    } else {
      assert (a + b)[1..] == a[1..] + b;
      WithoutAppend(a[1..], b, value);
    }
  }

  /** Filtering out a value that does not occur changes nothing. */
  lemma {:induction false} WithoutAbsent(list: seq<string>, value: string)
    requires value !in list
    ensures Without(list, value) == list
  {
    if list != [] {
      assert list[0] != value;
      WithoutAbsent(list[1..], value);
      assert [list[0]] + list[1..] == list;
    }
  }

  /** The new dietary list after a checkbox for `value` is clicked. */
  function Toggled(list: seq<string>, value: string): (r: seq<string>)
    ensures value in r <==> value !in list
    ensures forall x :: x != value ==> (x in r <==> x in list)
  {
    if value in list then Without(list, value) else list + [value]
  }

  /** An absent tag is appended at the end, the others keep their order. */
  lemma ToggleAbsentAppends(list: seq<string>, value: string)
    requires value !in list
    ensures Toggled(list, value) == list + [value]
    ensures Toggled(list, value)[..|list|] == list
  {
  }

  /** A present tag is removed everywhere, the others keep their order: the
      result is the concatenation of the pieces between the occurrences. */
  lemma ToggleRemovesEveryOccurrence(before: seq<string>, after: seq<string>, value: string)
    ensures Toggled(before + [value] + after, value)
         == Without(before, value) + Without(after, value)
  {
    WithoutAppend(before + [value], after, value);
    WithoutAppend(before, [value], value);
  }

  /** Clicking an unchecked tag twice restores exactly the original list. */
  lemma ToggleTwiceRestores(list: seq<string>, value: string)
    requires value !in list
    ensures Toggled(Toggled(list, value), value) == list
  {
    WithoutAppend(list, [value], value);
    WithoutAbsent(list, value);
    assert Without([value], value) == [];
  }

  /** Clicking a checked tag twice keeps the same tags but moves it to the end
      (and collapses duplicates of it), so the toggle is not an involution on
      lists. */
  lemma ToggleTwiceMovesToEnd(list: seq<string>, value: string)
    requires value in list
    ensures Toggled(Toggled(list, value), value) == Without(list, value) + [value]
  {
  }

  lemma ToggleTwiceReorders()
    ensures Toggled(Toggled(["vegetarian", "fish"], "vegetarian"), "vegetarian")
         == ["fish", "vegetarian"]
  {
    assert "vegetarian" in ["vegetarian", "fish"];
    assert Toggled(["vegetarian", "fish"], "vegetarian") == ["fish"];
  }

  // ---------------------------------------------------------------------------
  // Submission
  // ---------------------------------------------------------------------------

  /** What came back from POSTing the form: a reply whose status is or is not
      in the 2xx range and whose JSON body has a truthy `success` or not, or an
      exception (the network failed, or the body was not JSON). */
  datatype SubmitReply = Answered(ok: bool, success: bool) | Threw

  /** The notification shown after a submission. */
  datatype SubmitNotice = Thanks | SendFailed | CheckConnection

  /** The only reply that counts as a recorded answer. */
  predicate Confirmed(reply: SubmitReply) {
    reply.Answered? && reply.ok && reply.success
  }

  // ---------------------------------------------------------------------------
  // Countdown
  // ---------------------------------------------------------------------------

  const MsPerSecond := 1000
  const MsPerMinute := 1000 * 60
  const MsPerHour := 1000 * 60 * 60
  const MsPerDay := 1000 * 60 * 60 * 24

  /** The state slot `timeLeft` shown in the four countdown tiles. */
  datatype TimeLeft = TimeLeft(days: int, hours: int, minutes: int, seconds: int)

  const Elapsed := TimeLeft(0, 0, 0, 0)

  /** The number of milliseconds a countdown value stands for. */
  function Milliseconds(t: TimeLeft): int {
    t.days * MsPerDay + t.hours * MsPerHour + t.minutes * MsPerMinute + t.seconds * MsPerSecond
  }

  /** Hours below a day, minutes below an hour, seconds below a minute. */
  predicate Normal(t: TimeLeft) {
    0 <= t.days && 0 <= t.hours < 24 && 0 <= t.minutes < 60 && 0 <= t.seconds < 60
  }

  /** The timer's split of a distance in milliseconds. The distance is an
      integer (a difference of `getTime()` values) and is only divided when it
      is non-negative, where `Math.floor(a / b)` and `%` agree with Dafny's
      `/` and `%`. */
  function Countdown(distance: int): (t: TimeLeft)
    ensures distance < 0 ==> t == Elapsed
    ensures distance >= 0 ==> Normal(t)
    ensures distance >= 0 ==> Milliseconds(t) <= distance < Milliseconds(t) + MsPerSecond
  {
    if distance < 0 then Elapsed
    else
      var t := TimeLeft(distance / MsPerDay,
                        (distance % MsPerDay) / MsPerHour,
                        (distance % MsPerHour) / MsPerMinute,
                        (distance % MsPerMinute) / MsPerSecond);
      CountdownSplits(distance);
      t
  }

  /** Reducing modulo a multiple of `a` and then modulo `a` is reducing modulo `a`. */
  lemma ModOfMultiple(d: int, a: int, k: int)
    requires d >= 0 && a > 0 && k > 0
    ensures (d % (k * a)) % a == d % a
  {
    var q := d / (k * a);
    var r := d % (k * a);
    assert d == (k * a) * q + r;
    var r2 := r % a;
    assert r == a * (r / a) + r2;
    assert d == a * (k * q + r / a) + r2 by {
      assert (k * a) * q == a * (k * q);
    }
    DivModUnique(d, a, k * q + r / a, r2);
  }

  lemma DivModUnique(d: int, a: int, q: int, r: int)
    requires a > 0 && 0 <= r < a && d == a * q + r
    ensures d / a == q && d % a == r
  {
    var q0, r0 := d / a, d % a;
    assert a * q0 + r0 == a * q + r;
    var k := q - q0;
    assert a * k == r0 - r by {
      assert a * k == a * q - a * q0;
    }
    if k > 0 {
      MulAtLeast(a, k);
    } else if k < 0 {
      MulAtLeast(a, -k);
    }
  }

  lemma MulAtLeast(a: int, k: int)
    requires a > 0 && k > 0
    ensures a * k >= a
  {
    assert a * k == a * (k - 1) + a;
    assert a * (k - 1) >= 0;
  }

  lemma CountdownSplits(distance: int)
    requires distance >= 0
    ensures var t := TimeLeft(distance / MsPerDay,
                              (distance % MsPerDay) / MsPerHour,
                              (distance % MsPerHour) / MsPerMinute,
                              (distance % MsPerMinute) / MsPerSecond);
            Normal(t) && Milliseconds(t) <= distance < Milliseconds(t) + MsPerSecond
  {
    ModOfMultiple(distance, MsPerHour, 24);
    ModOfMultiple(distance, MsPerMinute, 60);
    ModOfMultiple(distance, MsPerSecond, 60);
  }

  /** The split is the only normal countdown value within a second below the
      distance, so it inverts `Milliseconds` on whole seconds. */
  lemma CountdownInverts(t: TimeLeft, ms: int)
    requires Normal(t) && 0 <= ms < MsPerSecond
    ensures Countdown(Milliseconds(t) + ms) == t
  {
    var d := Milliseconds(t) + ms;
    var rest := t.hours * MsPerHour + t.minutes * MsPerMinute + t.seconds * MsPerSecond + ms;
    DivModUnique(d, MsPerDay, t.days, rest);
    var rest2 := t.minutes * MsPerMinute + t.seconds * MsPerSecond + ms;
    DivModUnique(rest, MsPerHour, t.hours, rest2);
    DivModUnique(d, MsPerHour, t.days * 24 + t.hours, rest2);
    var rest3 := t.seconds * MsPerSecond + ms;
    DivModUnique(rest2, MsPerMinute, t.minutes, rest3);
    DivModUnique(d, MsPerMinute, (t.days * 24 + t.hours) * 60 + t.minutes, rest3);
    DivModUnique(rest3, MsPerSecond, t.seconds, ms);
  }

  // ---------------------------------------------------------------------------
  // The page component's state
  // ---------------------------------------------------------------------------

  /** The landing page's state slots and its one interval timer. */
  class Page {
    var formData: FormData
    var timeLeft: TimeLeft
    var timerActive: bool

    /** First render: the empty form, a zero countdown, the timer started. */
    constructor ()
      ensures formData == InitialForm && timeLeft == Elapsed && timerActive
    {
      formData := InitialForm;
      timeLeft := Elapsed;
      timerActive := true;
    }

    /** A click on the checkbox of a dietary tag. */
    method ToggleDietary(value: string)
      modifies this`formData
      ensures formData == old(formData).(dietaryRestrictions :=
                Toggled(old(formData.dietaryRestrictions), value))
    {
      formData := formData.(dietaryRestrictions := Toggled(formData.dietaryRestrictions, value));
    }

    /** The end of `handleSubmit`, once the POST of the whole record has
        answered or thrown: reset on a confirmed answer, keep on any failure. */
    method HandleSubmit(reply: SubmitReply) returns (notice: SubmitNotice)
      modifies this`formData
      ensures Confirmed(reply) ==> formData == InitialForm && notice == Thanks
      ensures !Confirmed(reply) ==> formData == old(formData)
      ensures reply.Answered? && !Confirmed(reply) ==> notice == SendFailed
      ensures reply.Threw? ==> notice == CheckConnection
    {
      match reply
      case Threw =>
        notice := CheckConnection;
      case Answered(ok, success) =>
        if ok && success {
          formData := InitialForm;
          notice := Thanks;
        } else {
          notice := SendFailed;
        }
    }

    /** One run of the interval callback, given the distance in milliseconds
        from now to the wedding. A negative distance stops the timer. */
    method Tick(distance: int)
      requires timerActive
      modifies this`timeLeft, this`timerActive
      ensures timeLeft == Countdown(distance)
      ensures timerActive <==> distance >= 0
    {
      timeLeft := Countdown(distance);
      if distance < 0 {
        timerActive := false;
      }
    }

    /** The effect's cleanup when the page unmounts. */
    method StopTimer()
      modifies this`timerActive
      ensures !timerActive
    {
      timerActive := false;
    }
  }
}
