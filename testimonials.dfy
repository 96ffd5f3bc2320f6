/** Testimonials: the published record's video and service helpers
    (pankaj/models.py), the submission form's two clean methods
    (pankaj/forms.py) and the moderation actions of the submission admin
    (pankaj/admin.py).

    The testimonial table is a sequence of records whose ids are their
    positions; `Testimonial.objects.create` appends one. */
module Testimonials {
  import opened Base
  import opened Text
  import opened CustomFilters

  // ---------------------------------------------------------------------------
  // The published testimonial
  // ---------------------------------------------------------------------------

  /** Python truthiness of a nullable string field. */
  predicate Truthy(s: Option<string>) {
    s.Some? && s.value != ""
  }

  datatype Testimonial = Testimonial(
    clientName: string,
    company: string,
    position: string,
    content: string,
    industry: string,
    rating: int,
    services: string,
    clientImage: Option<string>,   // the stored image's name, when one was copied
    video: Option<string>,         // the uploaded file's URL, when there is a file
    videoUrl: Option<string>,
    isActive: bool,
    isFeatured: bool)

  /** `get_video_source`: the uploaded file when there is one, else `video_url`. */
  function VideoSource(t: Testimonial): (r: Option<string>)
    ensures t.video.Some? ==> r == t.video
    ensures t.video.None? ==> r == t.videoUrl
  {
    if t.video.Some? then t.video else t.videoUrl
  }

  /** `is_video`: whether `video_url` is set. */
  predicate IsVideo(t: Testimonial) {
    Truthy(t.videoUrl)
  }

  /** The admin's `has_video` column: an uploaded file or a `video_url`. */
  predicate HasVideo(t: Testimonial) {
    t.video.Some? || Truthy(t.videoUrl)
  }

  /** `is_video` looks at `video_url` only: it implies `has_video`, and an
      upload alone makes `has_video` true while `is_video` stays false. */
  lemma VideoFlags(t: Testimonial, upload: string)
    ensures IsVideo(t) ==> HasVideo(t)
    ensures HasVideo(t) && !IsVideo(t) ==> t.video.Some?
    ensures IsVideo(t.(video := Some(upload))) == IsVideo(t)
    ensures HasVideo(t.(video := Some(upload)))
    ensures VideoSource(t.(video := Some(upload))) == Some(upload)
  {
  }

  /** Keeps the non-empty strings, in order. */
  function DropEmpty(xs: seq<string>): (r: seq<string>)
    ensures |r| <= |xs|
    ensures forall k :: 0 <= k < |r| ==> r[k] != "" && r[k] in xs
    ensures forall x {:trigger x in r} :: x in r <==> x in xs && x != ""
  {
    if xs == [] then []
    else if xs[0] == "" then DropEmpty(xs[1..])
    else [xs[0]] + DropEmpty(xs[1..])
  }

  /** Dropping the empty strings keeps the order of the others: it works
      piece by piece. */
  lemma {:induction false} DropEmptyAppend(a: seq<string>, b: seq<string>)
    ensures DropEmpty(a + b) == DropEmpty(a) + DropEmpty(b)
  {
    if a == [] {
      assert a + b == b;
    } else {
      assert (a + b)[0] == a[0] && (a + b)[1..] == a[1..] + b;
      DropEmptyAppend(a[1..], b);
    }
  }

  /** `get_service_tags`: the comma-separated services, stripped, empty ones
      dropped; `[]` when `services` is empty. */
  function ServiceTags(t: Testimonial): (r: seq<string>)
    ensures |r| <= CountChar(t.services, ',') + 1
    ensures forall x {:trigger x in r} :: x in r <==> x in SplitByComma(Some(t.services)) && x != ""
  {
    if t.services == "" then [] else DropEmpty(SplitByComma(Some(t.services)))
  }

  /** The tags are exactly the non-empty items of `split_by_comma` on the
      same text; each is non-empty, stripped and free of commas. */
  lemma ServiceTagsFromSplit(t: Testimonial)
    ensures ServiceTags(t) == DropEmpty(SplitByComma(Some(t.services)))
    ensures forall k :: 0 <= k < |ServiceTags(t)| ==>
      ServiceTags(t)[k] != "" && Strip(ServiceTags(t)[k]) == ServiceTags(t)[k] && ',' !in ServiceTags(t)[k]
  {
    SplitByCommaItems(Some(t.services));
  }

  // ---------------------------------------------------------------------------
  // The submission form
  // ---------------------------------------------------------------------------

  const MinTestimonialLength := 100
  const TooShortMessage := "Testimonial must be at least 100 characters long."

  /** `clean_testimonial_text`: a missing text reads as `""`; the text is
      rejected when it has fewer than 100 characters once stripped, and is
      otherwise returned as submitted, not stripped. */
  function CleanTestimonialText(text: Option<string>): (r: Result<string>)
    ensures var t := if text.Some? then text.value else "";
      && (r.Ok? <==> |Strip(t)| >= MinTestimonialLength)
      && (r.Ok? ==> r.value == t)
      && (r.Err? ==> r.error == ValidationError(TooShortMessage))
  {
    var t := if text.Some? then text.value else "";
    if |Strip(t)| < MinTestimonialLength then Err(ValidationError(TooShortMessage)) else Ok(t)
  }

  /** White space in front of a text never changes what `lstrip` leaves. */
  lemma {:induction false} TrimStartSkipsSpace(w: string, s: string)
    requires AllSpace(w)
    ensures TrimStart(w + s) == TrimStart(s)
  {
    if w != [] {
      assert IsSpace((w + s)[0]);
      assert (w + s)[1..] == w[1..] + s;
      assert AllSpace(w[1..]) by {
        forall i | 0 <= i < |w[1..]| ensures IsSpace(w[1..][i]) {
          assert w[1..][i] == w[i + 1];
        }
      }
      TrimStartSkipsSpace(w[1..], s);
    } else {
      assert w + s == s;
    }
  }

  /** So padding a text with leading white space never gets it accepted. */
  lemma PaddingDoesNotHelp(w: string, s: string)
    requires AllSpace(w)
    ensures CleanTestimonialText(Some(w + s)).Ok? <==> CleanTestimonialText(Some(s)).Ok?
  {
    TrimStartSkipsSpace(w, s);
  }

  /** An accepted text has at least 100 characters. */
  lemma AcceptedTextIsLong(text: Option<string>)
    ensures CleanTestimonialText(text).Ok? ==> |CleanTestimonialText(text).value| >= MinTestimonialLength
  {
    var t := if text.Some? then text.value else "";
    StripShape(t);
  }

  const DefaultRating := 5

  /** `clean_rating`: a missing or zero rating becomes 5; any other is kept. */
  function CleanRating(rating: Option<int>): (r: int)
    ensures rating.None? || rating == Some(0) ==> r == DefaultRating
    ensures rating.Some? && rating.value != 0 ==> r == rating.value
    ensures r != 0
  {
    match rating
    case None => DefaultRating
    case Some(n) => if n == 0 then DefaultRating else n
  }

  lemma CleanRatingIdempotent(rating: Option<int>)
    ensures CleanRating(Some(CleanRating(rating))) == CleanRating(rating)
  {
  }

  // ---------------------------------------------------------------------------
  // Submissions and their moderation
  // ---------------------------------------------------------------------------

  datatype Status = Pending | Approved | Rejected

  class TestimonialSubmission {
    const fullName: string
    const companyName: string
    const position: string
    const industry: string
    const testimonialText: string
    const rating: int
    const servicesUsed: string
    const profilePicture: Option<string>
    var status: Status
    var approvedTestimonial: Option<nat>   // id of the linked testimonial
    var approvedDate: Option<int>
    var isPublic: bool

    constructor (fullName: string, companyName: string, position: string, industry: string,
                 testimonialText: string, rating: int, servicesUsed: string, profilePicture: Option<string>)
      ensures this.fullName == fullName && this.companyName == companyName && this.position == position
      ensures this.industry == industry && this.testimonialText == testimonialText && this.rating == rating
      ensures this.servicesUsed == servicesUsed && this.profilePicture == profilePicture
      ensures status == Pending && approvedTestimonial.None? && approvedDate.None? && !isPublic
    {
      this.fullName := fullName;
      this.companyName := companyName;
      this.position := position;
      this.industry := industry;
      this.testimonialText := testimonialText;
      this.rating := rating;
      this.servicesUsed := servicesUsed;
      this.profilePicture := profilePicture;
      status := Pending;
      approvedTestimonial := None;
      approvedDate := None;
      isPublic := false;
    }
  }

  /** The fields moderation changes, as one value. */
  datatype Moderation = Moderation(status: Status, link: Option<nat>, approvedDate: Option<int>, isPublic: bool)

  function StateOf(s: TestimonialSubmission): Moderation
    reads s
  {
    Moderation(s.status, s.approvedTestimonial, s.approvedDate, s.isPublic)
  }

  function StatesOf(subs: seq<TestimonialSubmission>): (r: seq<Moderation>)
    reads set s | s in subs
    ensures |r| == |subs| && forall k :: 0 <= k < |subs| ==> r[k] == StateOf(subs[k])
  {
    if subs == [] then [] else [StateOf(subs[0])] + StatesOf(subs[1..])
  }

  /** The testimonial every approval path creates: the submission's fields,
      its profile picture as the client image, active and not featured. */
  function TestimonialFrom(s: TestimonialSubmission): (t: Testimonial)
    ensures t.clientName == s.fullName && t.company == s.companyName && t.position == s.position
    ensures t.content == s.testimonialText && t.industry == s.industry && t.rating == s.rating
    ensures t.services == s.servicesUsed && t.clientImage == s.profilePicture
    ensures t.isActive && !t.isFeatured && t.video.None? && t.videoUrl.None?
  {
    Testimonial(s.fullName, s.companyName, s.position, s.testimonialText, s.industry, s.rating,
                s.servicesUsed, s.profilePicture, None, None, true, false)
  }

  /** A queryset filter on the selection: a status, and for
      `create_missing_testimonials` also "no linked testimonial". */
  datatype Filter = Filter(status: Status, needUnlinked: bool)

  const PendingOnly := Filter(Pending, false)
  const ApprovedUnlinked := Filter(Approved, true)

  predicate Matches(m: Moderation, f: Filter) {
    m.status == f.status && (f.needUnlinked ==> m.link.None?)
  }

  /** The number of matching submissions among the first `n`. */
  function CountMatching(ms: seq<Moderation>, n: nat, f: Filter): (c: nat)
    requires n <= |ms|
    ensures c <= n
  {
    if n == 0 then 0 else CountMatching(ms, n - 1, f) + (if Matches(ms[n - 1], f) then 1 else 0)
  }

  /** A matching submission has strictly fewer matches before it than any
      later position has: the ids handed out are all different. */
  lemma {:induction false} CountMatchingIncreasing(ms: seq<Moderation>, j: nat, k: nat, f: Filter)
    requires j < k <= |ms| && Matches(ms[j], f)
    ensures CountMatching(ms, j, f) < CountMatching(ms, k, f)
    decreases k - j
  {
    if j < k - 1 {
      CountMatchingIncreasing(ms, j, k - 1, f);
    }
  }

  /** The new state of one submission that gets testimonial `id`: approving
      also sets the status, the approval date and the public flag;
      `create_missing_testimonials` only links. */
  function Linked(m: Moderation, id: nat, approve: bool, now: int): (r: Moderation)
    ensures r.link == Some(id)
    ensures approve ==> r.status == Approved && r.approvedDate == Some(now) && r.isPublic
    ensures !approve ==> r.status == m.status && r.approvedDate == m.approvedDate && r.isPublic == m.isPublic
  {
    if approve then Moderation(Approved, Some(id), Some(now), true) else m.(link := Some(id))
  }

  /** The state of the `k`-th submission after publishing every matching
      submission in order, the first new testimonial having id `base`. */
  function PublishedState(ms: seq<Moderation>, k: nat, f: Filter, base: nat, approve: bool, now: int): Moderation
    requires k < |ms|
  {
    if Matches(ms[k], f) then Linked(ms[k], base + CountMatching(ms, k, f), approve, now) else ms[k]
  }

  function PublishStates(ms: seq<Moderation>, f: Filter, base: nat, approve: bool, now: int): (r: seq<Moderation>)
    ensures |r| == |ms|
  {
    seq(|ms|, k requires 0 <= k < |ms| => PublishedState(ms, k, f, base, approve, now))
  }

  /** The testimonials created for the matching submissions among the first `n`. */
  function Created(subs: seq<TestimonialSubmission>, ms: seq<Moderation>, n: nat, f: Filter): (r: seq<Testimonial>)
    requires n <= |subs| == |ms|
    ensures |r| == CountMatching(ms, n, f)
  {
    if n == 0 then []
    else Created(subs, ms, n - 1, f) + (if Matches(ms[n - 1], f) then [TestimonialFrom(subs[n - 1])] else [])
  }

  /** The testimonial linked to the `k`-th matching submission is the one
      created from it. */
  lemma {:induction false} CreatedAt(subs: seq<TestimonialSubmission>, ms: seq<Moderation>, n: nat, k: nat, f: Filter)
    requires k < n <= |subs| == |ms| && Matches(ms[k], f)
    ensures CountMatching(ms, k, f) < |Created(subs, ms, n, f)|
    ensures Created(subs, ms, n, f)[CountMatching(ms, k, f)] == TestimonialFrom(subs[k])
  {
    if k < n - 1 {
      CreatedAt(subs, ms, n - 1, k, f);
      CountMatchingIncreasing(ms, k, n - 1, f);
    }
  }

  /** Every link points into the testimonial table. */
  predicate LinksValid(ms: seq<Moderation>, storeSize: nat) {
    forall k :: 0 <= k < |ms| && ms[k].link.Some? ==> ms[k].link.value < storeSize
  }

  /** Publishing keeps every link inside the grown table, and the links it
      hands out are pairwise different. */
  lemma PublishKeepsLinksValid(ms: seq<Moderation>, f: Filter, base: nat, approve: bool, now: int)
    requires LinksValid(ms, base)
    ensures LinksValid(PublishStates(ms, f, base, approve, now), base + CountMatching(ms, |ms|, f))
    ensures forall j, k :: 0 <= j < k < |ms| && Matches(ms[j], f) && Matches(ms[k], f) ==>
      PublishStates(ms, f, base, approve, now)[j].link != PublishStates(ms, f, base, approve, now)[k].link
  {
    var r := PublishStates(ms, f, base, approve, now);
    forall k | 0 <= k < |ms| && Matches(ms[k], f)
      ensures r[k].link.value < base + CountMatching(ms, |ms|, f)
    {
      CountMatchingIncreasing(ms, k, |ms|, f);
    }
    forall j, k | 0 <= j < k < |ms| && Matches(ms[j], f) && Matches(ms[k], f)
      ensures r[j].link != r[k].link
    {
      CountMatchingIncreasing(ms, j, k, f);
    }
  }

  /** Running `approve_selected` or `create_missing_testimonials` a second
      time on the same selection finds nothing left to do. */
  lemma {:induction false} RepublishFindsNothing(ms: seq<Moderation>, f: Filter, base: nat, approve: bool, now: int, n: nat)
    requires (f == PendingOnly && approve) || (f == ApprovedUnlinked && !approve)
    requires n <= |ms|
    ensures CountMatching(PublishStates(ms, f, base, approve, now), n, f) == 0
  {
    if n > 0 {
      RepublishFindsNothing(ms, f, base, approve, now, n - 1);
    }
  }

  /** Creates the testimonial for `s` and links it: `Testimonial.objects.create`
      appends it to the table, so its id is the table's old size. */
  method Publish(s: TestimonialSubmission, store: seq<Testimonial>, approve: bool, now: int)
    returns (store': seq<Testimonial>)
    modifies s
    ensures store' == store + [TestimonialFrom(s)]
    ensures StateOf(s) == Linked(old(StateOf(s)), |store|, approve, now)
  {
    store' := store + [TestimonialFrom(s)];
    s.approvedTestimonial := Some(|store|);
    if approve {
      s.status := Approved;
      s.approvedDate := Some(now);
      s.isPublic := true;
    }
  }

  /** The loop shared by `approve_selected` (pending submissions, approving)
      and `create_missing_testimonials` (approved and unlinked ones, linking
      only): every matching submission, in order, gets a new testimonial
      appended to the table; the others are untouched; the count is the
      number of matching submissions. */
  method PublishMatching(selected: seq<TestimonialSubmission>, store: seq<Testimonial>,
                         f: Filter, approve: bool, now: int, ghost ms: seq<Moderation>)
    returns (store': seq<Testimonial>, count: nat)
    requires forall j, k :: 0 <= j < k < |selected| ==> selected[j] != selected[k]
    requires |ms| == |selected| && forall k :: 0 <= k < |selected| ==> ms[k] == StateOf(selected[k])
    modifies set s | s in selected
    ensures count == CountMatching(ms, |selected|, f)
    ensures store' == store + Created(selected, ms, |selected|, f)
    ensures forall k :: 0 <= k < |selected| ==>
      StateOf(selected[k]) == PublishedState(ms, k, f, |store|, approve, now)
  {
    store' := store;
    count := 0;
    var i := 0;
    while i < |selected|
      invariant 0 <= i <= |selected|
      invariant count == CountMatching(ms, i, f)
      invariant store' == store + Created(selected, ms, i, f)
      invariant forall k :: 0 <= k < |selected| ==>
        StateOf(selected[k]) == if k < i then PublishedState(ms, k, f, |store|, approve, now) else ms[k]
    {
      var s := selected[i];
      assert StateOf(s) == ms[i];
      assert |store'| == |store| + CountMatching(ms, i, f);
      ghost var published := PublishedState(ms, i, f, |store|, approve, now);
      var matched;
      store', matched := PublishIfMatching(s, store', f, approve, now);
      assert StateOf(s) == published;
      if matched {
        count := count + 1;
      }
      i := i + 1;
    }
  }

  /** One submission of the loop: published when it matches the filter,
      left alone otherwise. */
  method PublishIfMatching(s: TestimonialSubmission, store: seq<Testimonial>, f: Filter, approve: bool, now: int)
    returns (store': seq<Testimonial>, matched: bool)
    modifies s
    ensures matched == Matches(old(StateOf(s)), f)
    ensures store' == if matched then store + [TestimonialFrom(s)] else store
    ensures StateOf(s) == if matched then Linked(old(StateOf(s)), |store|, approve, now) else old(StateOf(s))
  {
    matched := s.status == f.status && (f.needUnlinked ==> s.approvedTestimonial.None?);
    store' := store;
    if matched {
      store' := Publish(s, store, approve, now);
    }
  }

  /** `approve_selected`: every selected pending submission is approved,
      dated `now`, made public and linked to a new testimonial created from
      it; the others are untouched; the count is the number approved. */
  method ApproveSelected(selected: seq<TestimonialSubmission>, store: seq<Testimonial>, now: int)
    returns (store': seq<Testimonial>, approvedCount: nat)
    requires forall j, k :: 0 <= j < k < |selected| ==> selected[j] != selected[k]
    modifies set s | s in selected
    ensures approvedCount == CountMatching(old(StatesOf(selected)), |selected|, PendingOnly)
    ensures store' == store + Created(selected, old(StatesOf(selected)), |selected|, PendingOnly)
    ensures forall k :: 0 <= k < |selected| ==>
      StateOf(selected[k]) == PublishedState(old(StatesOf(selected)), k, PendingOnly, |store|, true, now)
  {
    store', approvedCount := PublishMatching(selected, store, PendingOnly, true, now, StatesOf(selected));
  }

  /** `create_missing_testimonials`: every selected approved submission with
      no linked testimonial gets one created from it; status, date and public
      flag never change. */
  method CreateMissingTestimonials(selected: seq<TestimonialSubmission>, store: seq<Testimonial>)
    returns (store': seq<Testimonial>, createdCount: nat)
    requires forall j, k :: 0 <= j < k < |selected| ==> selected[j] != selected[k]
    modifies set s | s in selected
    ensures createdCount == CountMatching(old(StatesOf(selected)), |selected|, ApprovedUnlinked)
    ensures store' == store + Created(selected, old(StatesOf(selected)), |selected|, ApprovedUnlinked)
    ensures forall k :: 0 <= k < |selected| ==>
      StateOf(selected[k]) == PublishedState(old(StatesOf(selected)), k, ApprovedUnlinked, |store|, false, 0)
  {
    store', createdCount := PublishMatching(selected, store, ApprovedUnlinked, false, 0, StatesOf(selected));
  }

  /** What the specification of the two publishing actions promises per
      submission: only pending ones change status, to approved, and every
      matching one is linked to the testimonial created from it. */
  lemma PublishedMeaning(subs: seq<TestimonialSubmission>, ms: seq<Moderation>, f: Filter, base: nat,
                         approve: bool, now: int, k: nat)
    requires |subs| == |ms| && k < |ms|
    ensures var r := PublishStates(ms, f, base, approve, now);
      && (!Matches(ms[k], f) ==> r[k] == ms[k])
      && (f == PendingOnly && approve ==> r[k].status == (if ms[k].status == Pending then Approved else ms[k].status))
      && (Matches(ms[k], f) ==>
            && r[k].link.Some? && r[k].link.value - base < |Created(subs, ms, |ms|, f)|
            && Created(subs, ms, |ms|, f)[r[k].link.value - base] == TestimonialFrom(subs[k]))
  {
    if Matches(ms[k], f) {
      CreatedAt(subs, ms, |ms|, k, f);
    }
  }

  /** `reject_selected`: every selected pending submission becomes rejected
      and nothing else changes; the count is their number. */
  method RejectSelected(selected: seq<TestimonialSubmission>) returns (rejectedCount: nat)
    requires forall j, k :: 0 <= j < k < |selected| ==> selected[j] != selected[k]
    modifies set s | s in selected
    ensures rejectedCount == CountMatching(old(StatesOf(selected)), |selected|, PendingOnly)
    ensures forall k :: 0 <= k < |selected| ==>
      StateOf(selected[k]) == Rejection(old(StatesOf(selected))[k])
  {
    ghost var ms := StatesOf(selected);
    rejectedCount := 0;
    var i := 0;
    while i < |selected|
      invariant 0 <= i <= |selected|
      invariant rejectedCount == CountMatching(ms, i, PendingOnly)
      invariant forall k :: 0 <= k < |selected| ==> StateOf(selected[k]) == (if k < i then Rejection(ms[k]) else ms[k])
    {
      var s := selected[i];
      if s.status == Pending {
        s.status := Rejected;
        rejectedCount := rejectedCount + 1;
      }
      i := i + 1;
    }
  }

  /** The state `reject_selected` leaves a submission in. */
  function Rejection(m: Moderation): (r: Moderation)
    ensures m.status == Pending ==> r.status == Rejected
    ensures m.status != Pending ==> r == m
    ensures r.link == m.link && r.approvedDate == m.approvedDate && r.isPublic == m.isPublic
  {
    if m.status == Pending then m.(status := Rejected) else m
  }

  /** After a rejection nothing is pending any more, so approving the same
      selection afterwards publishes nothing. */
  lemma {:induction false} RejectThenApproveFindsNothing(ms: seq<Moderation>, n: nat)
    requires n <= |ms|
    ensures CountMatching(seq(|ms|, k requires 0 <= k < |ms| => Rejection(ms[k])), n, PendingOnly) == 0
  {
    if n > 0 {
      RejectThenApproveFindsNothing(ms, n - 1);
    }
  }

  /** `save_model`: when the edit form changed `status` and it is now
      approved and no testimonial is linked yet, one is created from the
      submission and linked, and the submission is dated `now` and made
      public; otherwise nothing changes. */
  method SaveModel(obj: TestimonialSubmission, statusChanged: bool, store: seq<Testimonial>, now: int)
    returns (store': seq<Testimonial>)
    modifies obj
    ensures statusChanged && old(obj.status) == Approved && old(obj.approvedTestimonial).None? ==>
      && store' == store + [TestimonialFrom(obj)]
      && StateOf(obj) == Linked(old(StateOf(obj)), |store|, true, now)
    ensures !(statusChanged && old(obj.status) == Approved && old(obj.approvedTestimonial).None?) ==>
      store' == store && StateOf(obj) == old(StateOf(obj))
  {
    store' := store;
    if statusChanged && obj.status == Approved {
      if obj.approvedTestimonial.None? {
        store' := Publish(obj, store, true, now);
      }
    }
  }
}
