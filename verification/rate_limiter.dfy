/** The submission rate limiter installed by `addFormSecurity`
    (js/form-handler.js): a second submission of the same form within three
    seconds of the last accepted one is refused. The clock is a parameter. */
module RateLimiter {
  /** Milliseconds that must pass between two accepted submissions. */
  const Window := 3000

  /** `e.target.id || e.target.action`: the form's id, or its action when
      the id is empty. */
  function SubmissionKey(id: string, action: string): (r: string)
    ensures id != "" ==> r == id
    ensures id == "" ==> r == action
  {
    if id != "" then id else action
  }

  /** Whether a submission went through, and the last-accepted times after it. */
  datatype Step = Step(allowed: bool, times: map<string, int>)

  /** One submit event for `key` at time `now` (milliseconds). It is refused
      when a truthy earlier time is recorded for `key` and less than the
      window has elapsed since; otherwise `now` is recorded for `key`. */
  function Submit(times: map<string, int>, key: string, now: int): (r: Step)
    ensures !r.allowed <==> key in times && times[key] != 0 && now - times[key] < Window
    ensures !r.allowed ==> r.times == times
    ensures r.allowed ==> key in r.times && r.times[key] == now
    ensures forall k :: k != key ==> (k in r.times <==> k in times)
    ensures forall k :: k != key && k in times ==> r.times[k] == times[k]
  {
    var last := if key in times then times[key] else 0;
    if last != 0 && now - last < Window then Step(false, times)
    else Step(true, times[key := now])
  }

  /** A form submitted again within the window after an accepted submission
      is refused. */
  lemma ResubmitWithinWindowRefused(times: map<string, int>, key: string, first: int, second: int)
    requires first != 0 && second < first + Window
    requires Submit(times, key, first).allowed
    ensures !Submit(Submit(times, key, first).times, key, second).allowed
  {
  }

  datatype Submission = Submission(key: string, now: int)

  /** The submissions that go through, in order, when `subs` arrive one after
      another starting from the recorded times `times`. */
  function Accepted(times: map<string, int>, subs: seq<Submission>): (r: seq<Submission>)
    ensures |r| <= |subs|
    ensures forall i :: 0 <= i < |r| ==> r[i] in subs
    decreases |subs|
  {
    if |subs| == 0 then []
    else
      var step := Submit(times, subs[0].key, subs[0].now);
      var rest := Accepted(step.times, subs[1..]);
      assert forall i :: 0 <= i < |rest| ==> rest[i] in subs by {
        forall i | 0 <= i < |rest|
          ensures rest[i] in subs
        {
          assert rest[i] in subs[1..];
        }
      }
      if step.allowed then [subs[0]] + rest else rest
  }

  /** No clock reading is 0, the one value the limiter treats as "never
      submitted". Readings may otherwise go backwards. */
  predicate NonZeroClock(subs: seq<Submission>) {
    forall i :: 0 <= i < |subs| ==> subs[i].now != 0
  }

  /** Once `key` was last accepted at a non-zero `t`, every later acceptance
      of `key` comes at least a window after `t`. A reading below `t` is
      refused too, since its distance from `t` is below the window. */
  lemma {:induction false} AcceptedAfter(times: map<string, int>, subs: seq<Submission>, key: string)
    requires NonZeroClock(subs)
    requires key in times && times[key] != 0
    ensures forall s :: s in Accepted(times, subs) && s.key == key ==> s.now >= times[key] + Window
    decreases |subs|
  {
    if |subs| > 0 {
      var step := Submit(times, subs[0].key, subs[0].now);
      var tail := subs[1..];
      assert NonZeroClock(tail);
      if subs[0].key == key && step.allowed {
        assert step.times[key] == subs[0].now >= times[key] + Window;
        AcceptedAfter(step.times, tail, key);
      } else {
        assert step.times[key] == times[key];
        AcceptedAfter(step.times, tail, key);
      }
    }
  }

  /** Any two submissions of the same form are at least a window apart. */
  predicate Spaced(r: seq<Submission>) {
    forall i, j :: 0 <= i < j < |r| && r[i].key == r[j].key ==> r[j].now >= r[i].now + Window
  }

  /** A submission followed by spaced ones, none of its form within a window
      of it, is still spaced. */
  lemma SpacedCons(first: Submission, rest: seq<Submission>)
    requires Spaced(rest)
    requires forall x :: x in rest && x.key == first.key ==> x.now >= first.now + Window
    ensures Spaced([first] + rest)
  {
    var r := [first] + rest;
    forall i, j | 0 <= i < j < |r| && r[i].key == r[j].key
      ensures r[j].now >= r[i].now + Window
    {
      assert r[j] == rest[j - 1];
      if i > 0 {
        assert r[i] == rest[i - 1];
      } else {
        assert rest[j - 1] in rest;
      }
    }
  }

  /** Any two accepted submissions of the same form are at least a window
      apart. */
  lemma {:induction false} AcceptedSpaced(times: map<string, int>, subs: seq<Submission>)
    requires NonZeroClock(subs)
    ensures Spaced(Accepted(times, subs))
    decreases |subs|
  {
    if |subs| > 0 {
      var step := Submit(times, subs[0].key, subs[0].now);
      var tail := subs[1..];
      assert NonZeroClock(tail);
      var rest := Accepted(step.times, tail);
      AcceptedSpaced(step.times, tail);
      if step.allowed {
        AcceptedAfter(step.times, tail, subs[0].key);
        SpacedCons(subs[0], rest);
        assert Accepted(times, subs) == [subs[0]] + rest;
      }
    }
  }
}
