/** Scheduler plans (`Data/scheduler.json`): a plan shares a feed with a
    scheduler, who marks its posts as scheduled and gives them a date, a
    time and a caption. Plans are found by the `toString()` of their id,
    post entries by strict equality of the post id taken from the URL. */
module Scheduler {
  import opened Options
  import opened JsIds
  import Seqs

  /** One post's schedule. A field the stored record does not have is `None`. */
  datatype Slot = Slot(postId: string, scheduled: bool, date: Option<string>, time: Option<string>,
                       caption: Option<string>, updatedAt: Option<int>)

  datatype Plan = Plan(schedulerId: JsId, feedId: JsId, schedulerEmail: string, posts: seq<Slot>,
                       createdAt: int, sharedAt: int)

  /** The body of a patch. `None` is a field left undefined; an empty date or
      time is falsy and is ignored like an undefined one. */
  datatype Patch = Patch(scheduled: Option<bool>, date: string, time: string, caption: Option<string>)

  /** The index of the first plan whose id prints as `p`. */
  function PlanIndex(plans: seq<Plan>, p: string): (r: Option<nat>)
    ensures r.Some? ==> r.value < |plans| && plans[r.value].schedulerId.Text() == p
    ensures r.Some? ==> forall j :: 0 <= j < r.value ==> plans[j].schedulerId.Text() != p
    ensures r.None? <==> forall j :: 0 <= j < |plans| ==> plans[j].schedulerId.Text() != p
  {
    Seqs.FindIndex(plans, (s: Plan) => s.schedulerId.Text() == p)
  }

  /** `GET /api/scheduler/:schedulerId`. */
  function GetPlan(plans: seq<Plan>, p: string): (r: Option<Plan>)
    ensures r.None? <==> forall j :: 0 <= j < |plans| ==> plans[j].schedulerId.Text() != p
    ensures r.Some? ==> r.value in plans && r.value.schedulerId.Text() == p
  {
    match PlanIndex(plans, p)
    case Some(k) => Some(plans[k])
    case None => None
  }

  /** `GET /api/scheduler/feed/:feedId`: the plans of a feed, in stored order. */
  function PlansForFeed(plans: seq<Plan>, p: string): (r: seq<Plan>)
    ensures forall j :: 0 <= j < |r| ==> r[j] in plans && r[j].feedId.Text() == p
    ensures forall j :: 0 <= j < |plans| && plans[j].feedId.Text() == p ==> plans[j] in r
  {
    Seqs.Filter(plans, (s: Plan) => s.feedId.Text() == p)
  }

  /** The index of the first entry for `postId`. */
  function SlotIndex(posts: seq<Slot>, postId: string): (r: Option<nat>)
    ensures r.Some? ==> r.value < |posts| && posts[r.value].postId == postId
    ensures r.Some? ==> forall j :: 0 <= j < r.value ==> posts[j].postId != postId
    ensures r.None? <==> forall j :: 0 <= j < |posts| ==> posts[j].postId != postId
  {
    Seqs.FindIndex(posts, (s: Slot) => s.postId == postId)
  }

  /** The entry a patch starts from when the post has none. */
  function FreshSlot(postId: string): Slot {
    Slot(postId, false, None, None, None, None)
  }

  /** The entries with one for `postId` guaranteed, appended if missing. */
  function WithSlot(posts: seq<Slot>, postId: string): (r: seq<Slot>)
    ensures SlotIndex(r, postId).Some?
    ensures SlotIndex(posts, postId).Some? ==> r == posts
    ensures SlotIndex(posts, postId).None? ==> r == posts + [FreshSlot(postId)]
  {
    if SlotIndex(posts, postId).Some? then posts
    else
      var r := posts + [FreshSlot(postId)];
      assert r[|posts|].postId == postId;
      r
  }

  /** The fields of one entry after a patch at time `now`. */
  function Applied(s: Slot, patch: Patch, now: int): Slot {
    Slot(s.postId,
         patch.scheduled.GetOr(s.scheduled),
         if patch.date != "" then Some(patch.date) else s.date,
         if patch.time != "" then Some(patch.time) else s.time,
         if patch.caption.Some? then patch.caption else s.caption,
         Some(now))
  }

  /** A plan's entries after patching `postId`. */
  function Patched(posts: seq<Slot>, postId: string, patch: Patch, now: int): seq<Slot> {
    var r := WithSlot(posts, postId);
    var k := SlotIndex(r, postId).value;
    r[k := Applied(r[k], patch, now)]
  }

  class SchedulerStore {
    var plans: seq<Plan>

    constructor ()
      ensures plans == []
    {
      plans := [];
    }

    /** `POST /api/scheduler`: 400 without a truthy feed id, otherwise a new
        plan without entries, stamped and numbered with the clock. */
    method Create(feedId: JsId, schedulerEmail: string, now: int) returns (status: nat, plan: Option<Plan>)
      modifies this
      ensures !feedId.Truthy() ==> status == 400 && plan.None? && plans == old(plans)
      ensures feedId.Truthy() ==> (status == 200 && plan == Some(Plan(Num(now), feedId, schedulerEmail, [], now, now))
                                   && plans == old(plans) + [plan.value])
    {
      if !feedId.Truthy() {
        return 400, None;
      }
      var p := Plan(Num(now), feedId, schedulerEmail, [], now, now);
      plans := plans + [p];
      return 200, Some(p);
    }

    /** `PATCH /api/scheduler/:schedulerId/post/:postId`: 404 for an unknown
        plan; otherwise the post's entry is found or created and patched. */
    method PatchPost(p: string, postId: string, patch: Patch, now: int) returns (status: nat)
      modifies this
      ensures PlanIndex(old(plans), p).None? ==> status == 404 && plans == old(plans)
      ensures PlanIndex(old(plans), p).Some? ==>
        (var k := PlanIndex(old(plans), p).value;
         status == 200 && plans == old(plans)[k := old(plans)[k].(posts := Patched(old(plans)[k].posts, postId, patch, now))])
    {
      var k := PlanIndex(plans, p);
      if k.None? {
        return 404;
      }
      var plan := plans[k.value];
      plans := plans[k.value := plan.(posts := Patched(plan.posts, postId, patch, now))];
      status := 200;
    }
  }

  // ---- properties ----

  /** The entry for the patched post carries exactly the supplied fields,
      on top of what it had or of `{postId, scheduled: false}`. */
  lemma PatchSetsItsSlot(posts: seq<Slot>, postId: string, patch: Patch, now: int)
    ensures var r := Patched(posts, postId, patch, now);
      var before := match SlotIndex(posts, postId) case Some(k) => posts[k] case None => FreshSlot(postId);
      SlotIndex(r, postId).Some? &&
      var s := r[SlotIndex(r, postId).value];
      && s.postId == postId
      && s.scheduled == (if patch.scheduled.Some? then patch.scheduled.value else before.scheduled)
      && s.date == (if patch.date == "" then before.date else Some(patch.date))
      && s.time == (if patch.time == "" then before.time else Some(patch.time))
      && s.caption == (if patch.caption.None? then before.caption else patch.caption)
      && s.updatedAt == Some(now)
  {
    var w := WithSlot(posts, postId);
    var k := SlotIndex(w, postId).value;
    var r := Patched(posts, postId, patch, now);
    SameKeysSameIndex(w, r, postId);
  }

  /** A patch leaves every other post's entry where and as it was, and adds
      no entry but its own. */
  lemma PatchLeavesOtherSlots(posts: seq<Slot>, postId: string, patch: Patch, now: int, other: string)
    requires other != postId
    ensures var r := Patched(posts, postId, patch, now);
      |r| == |posts| + (if SlotIndex(posts, postId).Some? then 0 else 1)
      && SlotIndex(r, other) == SlotIndex(posts, other)
      && (SlotIndex(r, other).Some? ==> r[SlotIndex(r, other).value] == posts[SlotIndex(posts, other).value])
  {
    var w := WithSlot(posts, postId);
    var r := Patched(posts, postId, patch, now);
    SameKeysSameIndex(w, r, other);
    if SlotIndex(posts, postId).None? {
      AppendOtherKeepsIndex(posts, FreshSlot(postId), other);
    }
  }

  /** Replaying a patch in the same millisecond changes nothing more. */
  lemma PatchIdempotent(posts: seq<Slot>, postId: string, patch: Patch, now: int)
    ensures Patched(Patched(posts, postId, patch, now), postId, patch, now) == Patched(posts, postId, patch, now)
  {
    var r := Patched(posts, postId, patch, now);
    var w := WithSlot(posts, postId);
    var k := SlotIndex(w, postId).value;
    SameKeysSameIndex(w, r, postId);
    assert WithSlot(r, postId) == r;
    assert Applied(r[k], patch, now) == r[k];
  }

  /** An empty patch only creates the entry and stamps it. */
  lemma EmptyPatchOnlyStamps(posts: seq<Slot>, postId: string, now: int, k: nat)
    requires SlotIndex(posts, postId) == Some(k)
    ensures Patched(posts, postId, Patch(None, "", "", None), now) == posts[k := posts[k].(updatedAt := Some(now))]
  {
  }

  /** A freshly created plan answers to its printed id unless an older plan
      already does. */
  lemma CreatedPlanIsFound(plans: seq<Plan>, plan: Plan, now: int)
    requires plan.schedulerId == Num(now)
    requires GetPlan(plans, IntText(now)).None?
    ensures GetPlan(plans + [plan], IntText(now)) == Some(plan)
  {
    var s := plans + [plan];
    assert s[|plans|].schedulerId.Text() == IntText(now);
    assert forall j :: 0 <= j < |plans| ==> s[j] == plans[j];
  }

  // ---- helpers ----

  /** Replacing an entry by one with the same post id moves no index. */
  lemma SameKeysSameIndex(a: seq<Slot>, b: seq<Slot>, x: string)
    requires |a| == |b| && forall j :: 0 <= j < |a| ==> a[j].postId == b[j].postId
    ensures SlotIndex(a, x) == SlotIndex(b, x)
  {
    if SlotIndex(a, x).Some? {
      assert b[SlotIndex(a, x).value].postId == x;
    }
  }

  lemma AppendOtherKeepsIndex(a: seq<Slot>, s: Slot, x: string)
    requires s.postId != x
    ensures SlotIndex(a + [s], x) == SlotIndex(a, x)
  {
    var b := a + [s];
    if SlotIndex(a, x).Some? {
      assert b[SlotIndex(a, x).value].postId == x;
    }
  }
}
