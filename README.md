# A verified model of the pankaj consultancy site's core

This project models the logic at the heart of the Django site for a chartered-accountancy practice. It covers five parts:

- **The appointment-availability engine** (`pankaj/views.py`):
  - the overlap test between a requested slot and an existing booking, which puts a 15-minute buffer after the booking;
  - the single-point guard `is_time_available`;
  - the day view `get_available_slots`, which lists every free start on a 15-minute grid from 09:00 to 17:00;
  - the month view `check_date_availability`, which gives one has-availability flag per calendar day.
- **Unique blog slugs.** `BlogPost.save` in `pankaj/models.py` finds a slug. The `fix_slugs` management command and data migration 0002 repair blank slugs. All three use the same rule: the first of `base`, `base-1`, `base-2`, … that is not taken.
- **The slot-template generator** (`setup_slots`). It lists the weekly consultation templates and writes them with `get_or_create`.
- **Two repair and moderation routines:**
  - the duplicate-payment repair script `pankaj/fix_duplicate.py`;
  - the testimonial-submission admin actions in `pankaj/admin.py`.
- **Small pure helpers:**
  - the template filters `split_by_comma` and `get_item`;
  - the testimonial record's `get_video_source`, `is_video` and `get_service_tags`;
  - the submission form's two clean methods.

Each source file keeps its own form in the model:

- **Loops.** Loops that change variables step by step (the day and month scans, the slug repair, the template enumeration and writes, the payment repair) are methods with loop invariants. Each method is proved equal to a specification function, and the properties are lemmas about that function.
- **Objects updated in place.** Objects whose fields the source updates are classes with `modifies` frames: a blog post (`slug`, `excerpt`) and a testimonial submission (`status`, `approved_testimonial`, `approved_date`, `is_public`).
- **Pure helpers** are functions with lemmas.

Modules:

| module | file | models |
|---|---|---|
| `Base` | base.dfy | `Option`, `Result` and the exceptions the core raises, as values |
| `Text` | text.dfy | Python's `isspace`, `strip`, `split(',')`, `str(n)`, `int(s)` and `replace(pat, '')` |
| `Calendar` | calendar.dfy | `datetime.date`: validity, order, the next day, month lengths |
| `Bookings` | bookings.dfy | the `ConsultationBooking` record and its `"N-min"` duration text |
| `Availability` | availability.dfy | pankaj/views.py: the overlap test, `is_time_available`, the day and month views |
| `Blog` | blog.dfy | `BlogPost.save`, the `fix_slugs` command, migration 0002 |
| `CustomFilters` | custom_filters.dfy | templatetags/custom_filters.py |
| `Testimonials` | testimonials.dfy | the testimonial helpers, the form's clean methods, the submission admin |
| `SlotTemplates` | slot_templates.dfy | the `setup_slots` command |
| `Payments` | payments.dfy | pankaj/fix_duplicate.py |

Outside inputs become parameters:

- The clock is a parameter: `today: Date` and `nowMicros`, the time of day in microseconds, because `now.time()` has sub-second precision. In the payment and moderation actions it is `now: int`.
- Database tables are sequences of records in query order.
- Django's `slugify` is a function parameter, since nothing about it is relied on.
- Auto-increment keys are explicit: the next payment key, and a testimonial's position in its table.

The operations follow the code as written, including the fit test on a wrapped time of day described under "## Findings". Three more places where the code differs from the system's own description, again followed as written:

- **The default duration.** The day view's default of 45 minutes for a bad duration is dead code: `int(duration)` runs again right after it. So `AvailableSlots` takes the duration as given. The month view's default is live and is modelled as `MonthDuration`.
- **The month view ignores the clock.** It does not skip past times on today's date. `MonthAgreesWithDayView` states the agreement with the day view only for days other than today.
- **`fix_slugs` and the migration pick the base differently.** The command slugifies any non-empty title. The migration slugifies only a title with a non-space character. `ScriptsDifferOnlyOnWhitespaceTitles` states the one case where they differ.

Known limitation of the payment repair: it does not always leave valid references. The cleanup runs only when some booking has no payment or some payment has no booking. A booking whose `payment_id` names no payment, while it still has a payment linked to it, triggers neither repair path. `Payments.StaleReferenceSurvives` exhibits such a table, and `verify_fix` reports it. `Payments.FixDuplicatePayments` therefore promises valid references only when the cleanup ran.

## Model

| member | source | states |
|---|---|---|
| Availability.ConflictsIffSharesMinute | pankaj/views.py:1694-1701 | the overlap test `t < s+dur+15 && t+d > s` holds iff the candidate and the buffered booking share a minute (both directions, positive lengths) |
| Availability.Conflicts | pankaj/views.py:1699 | the overlap test of both views: the candidate starts before the buffered booking ends and ends after it starts, the same test as pankaj/views.py:1855 (definition; its meaning is `ConflictsIffSharesMinute`) |
| Availability.BufferFollowsEndOnly | pankaj/views.py:1850-1856 | the 15-minute buffer follows the booking's end only: starting at its end or inside the buffer conflicts, starting when the buffer ends or ending when the booking starts does not |
| Availability.VerdictFree | pankaj/views.py:1843-1858 | the booking scan reports a slot available exactly when no live booking of that date conflicts with it (both directions) |
| Availability.VerdictWellFormed | pankaj/views.py:1849-1852 | the scan cannot raise when every live booking of the date has a readable duration |
| Availability.Verdict | pankaj/views.py:1849-1858 | the booking loop in query order: false at the first conflict, an error at the first unreadable duration, true at the end (definition; its meaning is `VerdictFree` and `VerdictCause`) |
| Availability.VerdictCause | pankaj/views.py:1849-1858 | a scan that raises met a live booking with an unreadable duration, and a scan that refuses met a live booking that conflicts |
| Availability.VerdictDependsOnOrder | pankaj/views.py:1849-1858 | with one conflicting booking and one unreadable one, the scan refuses when the conflicting one comes first and raises the other way round |
| Availability.IgnoredBookingChangesNothing | pankaj/views.py:1664-1666 | inserting a cancelled booking, or a booking on another date, anywhere among the bookings changes no verdict |
| Availability.ScanBookings | pankaj/views.py:1849-1858 | the loop of `is_time_available` computes the verdict of the bookings in query order, with its early return on the first conflict or unreadable duration |
| Availability.IsTimeAvailable | pankaj/views.py:1827-1858 | `is_time_available` returns the verdict; its value is true iff the slot is free; it cannot fail when durations are readable |
| Availability.WorkedExample | pankaj/views.py:1696-1699 | with a confirmed 30-minute booking at 10:00 and a 30-minute request, 09:30 and 10:45 are free, and 09:45, 10:00, 10:15 and 10:30 are not |
| Availability.FitsAgreeWithinDay | pankaj/views.py:1689 | the fit test as written, on a time of day, agrees with the test on minutes whenever the slot ends on the day it starts |
| Availability.MidnightWrapAdmitsOverlongSlot | pankaj/views.py:1689 | a 900-minute slot at 09:00 passes the fit test as written, though it ends after 17:00 |
| Availability.FitsAsWritten | pankaj/views.py:1689 | the fit test as written: the slot's end, wrapped to a time of day, is not after 17:00 (definition; see `FitsAgreeWithinDay` and the Findings) |
| Availability.Fits | pankaj/views.py:1689 | the fit test as intended: the slot ends by 17:00 on the day it starts (definition; the corrected half of the Finding) |
| Availability.IntendedDayView | pankaj/views.py:1683-1690 | for every duration from 0 to 419 minutes, the day view examines a start iff it is on the grid, not past on today's date, and the slot ends by 17:00 on the same day |
| Availability.DayViewOffersWrappedSlot | pankaj/views.py:1680-1701 | on an empty day other than today, a 420-minute request is offered the 17:00 start, ending at midnight, which does not end by 17:00 |
| Availability.AvailableSlots | pankaj/views.py:1641-1718 | a date before today gives no slots; otherwise the result is exactly the free grid starts from 09:00 to 17:00 that pass the fit test as written (the end, wrapped to a time of day, not after 17:00) and, on today's date, are not earlier than now; every slot ends `d` minutes after its start; starts are strictly ascending; an unreadable duration met by the scan fails the call, and only then |
| Availability.OffGrid | pankaj/views.py:1718 | no grid start lies strictly between two neighbouring 15-minute starts |
| Availability.ExamineStart | pankaj/views.py:1683-1701 | one start of the day view: skipped when past on today's date or failing the fit test as written, otherwise the booking verdict; a successful result is true iff the start is examined and free |
| Availability.MonthDuration | pankaj/views.py:1745-1754 | the month view's duration is the parameter when `int` reads a positive number from it, and 45 otherwise; it is always positive |
| Availability.ScanFromMeaning | pankaj/views.py:1784-1803 | with readable durations, the month scan from a grid point on finds availability iff some later quarter hour before 17:00 starts a free slot that passes the fit test as written |
| Availability.ScanFrom | pankaj/views.py:1784-1803 | the month scan of one day from grid point `k` on, in grid order, stopping at the first free start that passes the fit test (definition; its meaning is `ScanFromMeaning`) |
| Availability.ScanFromStep | pankaj/views.py:1790-1800 | with readable durations, one grid point of the month scan succeeds iff its start passes the fit test and is free; otherwise the scan goes on |
| Availability.DayScan | pankaj/views.py:1781-1803 | the month scan of one whole day (definition; its meaning is `DayScanMeaning`) |
| Availability.IntendedMonthView | pankaj/views.py:1784-1803 | for every duration from 0 to 419 minutes and readable durations, a day has availability iff some grid start ends by 17:00 on the same day and is free |
| Availability.MonthViewFindsOverlongSlot | pankaj/views.py:1784-1803 | an empty day has availability for a 481-minute request, though no grid start ends by 17:00 |
| Availability.DayScanMeaning | pankaj/views.py:1781-1803 | with readable durations, a day has availability iff some quarter hour from 09:00 to 16:45 starts a free slot whose end, wrapped to a time of day, is not after 17:00 |
| Availability.MonthAgreesWithDayView | pankaj/views.py:1784-1803 | on a day other than today, and for a duration the day view's extra 17:00 start fails the fit test with (every duration from 1 to 419 minutes), the month view reports availability iff the day view would list at least one slot |
| Availability.EmptyDayAvailability | pankaj/views.py:1784-1803 | a day with no live booking has availability iff some grid start passes the fit test as written; so it has availability for every duration up to the 480 minutes of working hours |
| Availability.ScanStart | pankaj/views.py:1790-1800 | one grid point of the month scan: a start that fails the fit test as written is skipped, any other returns the booking verdict, so the scan result is unchanged |
| Availability.DayHasAvailability | pankaj/views.py:1781-1803 | the nested hour and minute loops compute the day scan, breaking out at the first free start; with readable durations the result is "some free start passing the fit test as written exists" |
| Availability.MonthDay | pankaj/views.py:1771-1811 | one day of the month loop: a past day is unavailable and not scanned; any other day is scanned, and a failed scan raises |
| Availability.MonthAvailability | pankaj/views.py:1756-1814 | an invalid month raises; otherwise there is one entry per calendar day of the month, in order of day; each entry is past iff before today, and available iff not past and its scan finds a free slot; the call fails iff some non-past day's scan fails |
| Bookings.DurationOfLabel | pankaj/views.py:641 | reading a stored `"N-min"` label back with `int(duration.replace('-min', ''))` gives N |
| Calendar.NextDay | pankaj/views.py:1814 | `timedelta(days=1)` gives a later date with no valid date in between, itself valid below the last supported day |
| Calendar.FirstOfNextMonth | pankaj/views.py:1759-1763 | the first day of the next month, December rolling into January of the next year: it comes after the month's last day and is itself a valid date, except after December 9999 |
| Calendar.FirstOfNextMonthIsNextDay | pankaj/views.py:1759-1763 | the first of the next month is the day after the month's last, so no valid date lies between them |
| Calendar.DaysInMonth | pankaj/views.py:1757-1763 | every month has 28 to 31 days, February 29 exactly in leap years |
| Calendar.BeforeIsStrictOrder | pankaj/views.py:1772 | date comparison is a strict total order |
| Blog.CandidateInjective | pankaj/models.py:42 | different counters give different candidate slugs |
| Blog.TakenBound | pankaj/models.py:41-43 | if the first `n` candidates are all taken, at least `n` slugs are taken, so the counter loop stops |
| Blog.FirstFreeIsFirstFree | pankaj/models.py:36-45 | the slug found is not taken, and every candidate before it is |
| Blog.FirstFreeUnique | pankaj/models.py:36-45 | a free candidate preceded only by taken ones is the slug found |
| Blog.FirstFree | pankaj/models.py:36-45 | the first of `base`, `base-1`, `base-2`, ... that is not taken (definition; its meaning is `FirstFreeIsFirstFree` and `FirstFreeUnique`) |
| Blog.FirstFreeOfFreeBase | pankaj/models.py:37 | a base that is not taken is used as it is |
| Blog.FirstFreeSlug | pankaj/models.py:37-43 | the counter loop finds the first free candidate |
| Blog.FirstFreeNotBlank | pankaj/management/commands/fix_slugs.py:35-40 | the slug found for a non-blank base is non-blank |
| Blog.BlogPost.Save | pankaj/models.py:34-50 | an existing non-empty slug is never changed; an empty one becomes the first free candidate of `slugify(title)` and is not among the existing slugs; the excerpt is defaulted from the content |
| Blog.DefaultExcerpt | pankaj/models.py:47-48 | a non-empty excerpt is kept; an empty one with content becomes the first 300 characters of the content plus `...`, at most 303 characters; an empty one without content stays empty |
| Blog.DefaultExcerptIdempotent | pankaj/models.py:47-48 | a defaulted excerpt is kept by the next save |
| Blog.FallbackSlug | pankaj/management/commands/fix_slugs.py:29 | `blog-post-{id}` is never blank |
| Blog.RepairBaseFacts | pankaj/management/commands/fix_slugs.py:25-33 | the repair base is never blank; it is the slugified title only when the script accepts the title, and `blog-post-{id}` otherwise |
| Blog.RepairBase | pankaj/management/commands/fix_slugs.py:25-33 | the base each script repairs a post from, with the `blog-post-{id}` fallback (definition; its meaning is `RepairBaseFacts` and `ScriptsDifferOnlyOnWhitespaceTitles`) |
| Blog.ScriptsDifferOnlyOnWhitespaceTitles | pankaj/migrations/0002_fix_existing_slugs.py:12-18 | the command and the migration choose the same base, except for a title made only of white space, where the migration falls back to `blog-post-{id}` |
| Blog.RepairKeeps | pankaj/migrations/0002_fix_existing_slugs.py:10 | the repair keeps every non-blank slug and touches no post before the current one |
| Blog.RepairFrom | pankaj/migrations/0002_fix_existing_slugs.py:10-27 | the in-order repair of the slug column from post `i` on: each blank slug is replaced by the first candidate of its base no other post holds at that moment; the column keeps its length |
| Blog.RepairLeavesNoBlank | pankaj/migrations/0002_fix_existing_slugs.py:10-27 | after the repair no slug is blank |
| Blog.RepairOfNoBlank | pankaj/migrations/0002_fix_existing_slugs.py:10 | a slug column without blank slugs is left exactly as it is |
| Blog.RepairIdempotent | pankaj/migrations/0002_fix_existing_slugs.py:10-27 | a second run of either script changes nothing |
| Blog.RepairedAreDistinct | pankaj/management/commands/fix_slugs.py:36-44 | every repaired slug differs from every other post's final slug, so two blank posts with the same title end up with different slugs |
| Blog.RepairChangesExactlyBlank | pankaj/management/commands/fix_slugs.py:19-45 | a post's slug changes exactly when it was empty or white space only |
| Blog.RepairPost | pankaj/management/commands/fix_slugs.py:15-45 | one post: fixed iff its slug is blank, in which case it gets the first candidate of its base that no other post holds; the excerpt is untouched |
| Blog.RepairSlugs | pankaj/management/commands/fix_slugs.py:9-51 | the loop over posts leaves each slug as the in-order repair of the original column prescribes; `fixed_count` is the number of blank slugs; excerpts are unchanged |
| Blog.RepairAll | pankaj/migrations/0002_fix_existing_slugs.py:8-27 | the same loop over an explicit original slug column and base list |
| CustomFilters.SplitByComma | templatetags/custom_filters.py:6-10 | `[]` for a missing or empty value; otherwise one item per comma-separated piece, commas plus one in number |
| CustomFilters.SplitByCommaItems | templatetags/custom_filters.py:10 | every item is stripped and holds no comma; empty items are kept |
| CustomFilters.SplitByCommaJoin | templatetags/custom_filters.py:10 | a value with no white space around its commas is given back whole by joining the items with commas |
| CustomFilters.GetItem | templatetags/custom_filters.py:13-15 | the mapped value when the key is present, `[]` otherwise |
| CustomFilters.GetItemAfterUpdate | templatetags/custom_filters.py:15 | reading back a key just stored gives its value, and other keys are unaffected |
| CustomFilters.StripIdempotent | templatetags/custom_filters.py:10 | stripping a stripped string changes nothing |
| Text.StripEmptyIffAllSpace | pankaj/management/commands/fix_slugs.py:19 | `s.strip() == ''` holds iff every character of `s` is white space |
| Text.SplitJoin | templatetags/custom_filters.py:10 | joining the pieces of `split(',')` with commas gives the string back |
| Text.NatToStringInjective | pankaj/management/commands/fix_slugs.py:39 | different counters print differently |
| Text.StripShape | templatetags/custom_filters.py:10 | `strip()` removes only white space, from both ends, and leaves no white space at either end |
| Text.ParseIntOfNatToString | pankaj/views.py:1695 | `int(str(n)) == n` |
| Text.ParseIntOfNegated | pankaj/views.py:1749 | `int('-' + str(n)) == -n` |
| Testimonials.VideoSource | pankaj/models.py:94-97 | the uploaded video when there is one, else `video_url` |
| Testimonials.VideoFlags | pankaj/admin.py:72-73 | `is_video` implies `has_video`; `has_video` without `is_video` means an uploaded file; adding an upload leaves `is_video` unchanged, makes `has_video` true and makes the upload the video source |
| Testimonials.ServiceTags | pankaj/models.py:113-117 | no more tags than commas plus one; a string is a tag iff it is a non-empty item of `split_by_comma` on the services text |
| Testimonials.ServiceTagsFromSplit | pankaj/models.py:113-117 | the tags are exactly the non-empty items of `split_by_comma` on the same text; each is non-empty, stripped and free of commas |
| Testimonials.DropEmpty | pankaj/models.py:116 | a string is kept iff it is in the input and non-empty; the result is no longer than the input |
| Testimonials.DropEmptyAppend | pankaj/models.py:116 | dropping the empty items works piece by piece, so the kept items stay in their input order |
| Testimonials.CleanTestimonialText | pankaj/forms.py:26-30 | a missing text reads as empty; the text is accepted iff it has at least 100 characters once stripped, and is then returned as submitted, not stripped; a rejection carries the form's message |
| Testimonials.PaddingDoesNotHelp | pankaj/forms.py:28 | leading white space never gets a text accepted or rejected |
| Testimonials.AcceptedTextIsLong | pankaj/forms.py:28-30 | an accepted text has at least 100 characters |
| Testimonials.CleanRating | pankaj/forms.py:32-36 | a missing or zero rating becomes 5; any other is returned unchanged; the result is never 0 |
| Testimonials.CleanRatingIdempotent | pankaj/forms.py:32-36 | cleaning a cleaned rating changes nothing |
| Testimonials.TestimonialFrom | pankaj/admin.py:122-145 | the created testimonial copies the submission's fields and profile picture, and is active and not featured |
| Testimonials.Linked | pankaj/admin.py:147-151 | approving sets the status, the link, the approval date and `is_public`; linking a missing testimonial sets the link and keeps status, date and visibility |
| Testimonials.CountMatchingIncreasing | pankaj/admin.py:117-155 | a matching submission is counted, so it has fewer matches before it than any later position |
| Testimonials.CreatedAt | pankaj/admin.py:122-152 | the `k`-th matching submission is linked to the testimonial created for it, at the position its count gives |
| Testimonials.PublishKeepsLinksValid | pankaj/admin.py:116-180 | publishing keeps every link inside the grown testimonial table and links different submissions to different testimonials |
| Testimonials.RepublishFindsNothing | pankaj/admin.py:118 | a second run of `approve_selected` or `create_missing_testimonials` on the same selection finds nothing to do |
| Testimonials.Publish | pankaj/admin.py:122-152 | creates the testimonial for one submission, appends it to the table and links it |
| Testimonials.PublishIfMatching | pankaj/admin.py:118-155 | one submission of the loop: published iff it matches the queryset filter, otherwise untouched |
| Testimonials.PublishMatching | pankaj/admin.py:116-245 | the loop shared by the two publishing actions: the count is the number of matching submissions, the new testimonials are theirs in order, and each submission ends in its published state |
| Testimonials.ApproveSelected | pankaj/admin.py:116-180 | only selected pending submissions are processed; each becomes approved and public with a new active, non-featured testimonial linked; the count is the number processed; others are untouched |
| Testimonials.CreateMissingTestimonials | pankaj/admin.py:211-245 | only approved submissions with no linked testimonial get one; their status is unchanged; the count is the number linked |
| Testimonials.PublishedMeaning | pankaj/admin.py:116-245 | each submission's state after publishing: a matching one is linked to its testimonial and, when approving, approved, dated and public; any other is unchanged |
| Testimonials.RejectSelected | pankaj/admin.py:182-209 | only selected pending submissions become rejected, with links, dates and visibility kept; the count is the number rejected |
| Testimonials.Rejection | pankaj/admin.py:184-185 | a pending submission becomes rejected; any other is unchanged |
| Testimonials.RejectThenApproveFindsNothing | pankaj/admin.py:118 | after a rejection nothing is pending, so approving the same selection finds nothing |
| Testimonials.SaveModel | pankaj/admin.py:247-280 | a testimonial is created and linked, the date set and the submission made public only when the status changed to approved and none is linked; otherwise nothing changes |
| SlotTemplates.AppendHalfHours | pankaj/management/commands/setup_slots.py:18-27 | the 30-minute loop of one day appends exactly that day's half-hour templates |
| SlotTemplates.AppendHour | pankaj/management/commands/setup_slots.py:19-27 | the minute loop of one hour appends `:00` always and `:30` unless it is the skipped hour |
| SlotTemplates.AppendFortyFive | pankaj/management/commands/setup_slots.py:30-36 | the 45-minute loop appends one template per listed start |
| SlotTemplates.AppendHourly | pankaj/management/commands/setup_slots.py:39-45 | the 60-minute loop appends one template per hour |
| SlotTemplates.AppendDay | pankaj/management/commands/setup_slots.py:16-45 | one day's three loops append that day's templates |
| SlotTemplates.AllDays | pankaj/management/commands/setup_slots.py:16 | the loop over days sharing one schedule lists their templates in order |
| SlotTemplates.BuildTemplate | pankaj/management/commands/setup_slots.py:13-77 | the enumeration produces the full template list: Monday to Friday, then Saturday |
| SlotTemplates.Template | pankaj/management/commands/setup_slots.py:13-77 | the full template list, Monday to Friday then Saturday (definition; its meaning is `TemplateSize`, `TemplateDistinct` and `DayWithinHours`) |
| SlotTemplates.DaySize | pankaj/management/commands/setup_slots.py:16-77 | one day gets two half hours per hour less the skipped one, one 45-minute slot per listed start, and one hourly slot per hour |
| SlotTemplates.TemplateSize | pankaj/management/commands/setup_slots.py:16-77 | 29 templates per weekday, 19 on Saturday, 164 in all |
| SlotTemplates.DaysSlotsSize | pankaj/management/commands/setup_slots.py:16 | `n` days sharing a schedule get `n` times its per-day count |
| SlotTemplates.HalfHourBlock | pankaj/management/commands/setup_slots.py:18-27 | the half-hour templates are on their day, 30 minutes long, within their hours, and strictly ascending |
| SlotTemplates.FortyFiveBlock | pankaj/management/commands/setup_slots.py:30-36 | the 45-minute templates are on their day and strictly ascending from the first listed start to the last |
| SlotTemplates.HourlyBlock | pankaj/management/commands/setup_slots.py:39-45 | the hourly templates are on their day, 60 minutes long and strictly ascending |
| SlotTemplates.DayDistinct | pankaj/management/commands/setup_slots.py:16-45 | one day's templates have distinct (day, start, duration) keys, all on that day |
| SlotTemplates.DaysDistinct | pankaj/management/commands/setup_slots.py:16-45 | templates of distinct days have distinct keys |
| SlotTemplates.TemplateDistinct | pankaj/management/commands/setup_slots.py:16-77 | the 164 templates have 164 different keys, and none is on a Sunday |
| SlotTemplates.WeekScheduleFacts | pankaj/management/commands/setup_slots.py:16-77 | both schedules are well shaped, the five weekdays are distinct, and the per-day counts are 29 and 19 |
| SlotTemplates.DayWithinHours | pankaj/management/commands/setup_slots.py:15-77 | a weekday's templates lie within 09:00 to 17:30, Saturday's within 10:00 to 15:30 |
| SlotTemplates.ScheduleWithin | pankaj/management/commands/setup_slots.py:16-77 | a well-shaped day's templates start at or after its opening and end by its closing |
| SlotTemplates.EndTime | pankaj/management/commands/setup_slots.py:82-88 | the end time is the start plus the duration, wrapped to a time of day, and without wrap when the slot ends the same day |
| SlotTemplates.WriteSlots | pankaj/management/commands/setup_slots.py:80-101 | the create loop writes every template with `get_or_create`; `created_count` counts the new rows and equals the table's growth |
| SlotTemplates.InstallGrowth | pankaj/management/commands/setup_slots.py:90-101 | the count of created rows is exactly the growth of the table |
| SlotTemplates.GetOrCreateGrowth | pankaj/management/commands/setup_slots.py:90-99 | one write adds a key exactly when the key was missing |
| SlotTemplates.GetOrCreate | pankaj/management/commands/setup_slots.py:90-99 | `get_or_create` on the key (day, start, duration): the key is then in the table, no other key appears, existing rows are unchanged, and a missing key gets the computed end time, the template's capacity and `is_active` |
| SlotTemplates.Install | pankaj/management/commands/setup_slots.py:90-99 | the table after the first `n` writes (definition; its meaning is `InstallContents`, `InstallNewRow` and `InstallGrowth`) |
| SlotTemplates.InstallContents | pankaj/management/commands/setup_slots.py:90-99 | after writing, every template's key is in the table, existing rows are unchanged, and no other key appears |
| SlotTemplates.InstallNewRow | pankaj/management/commands/setup_slots.py:94-98 | a row created for a new key carries the computed end time, the template's capacity and `is_active` |
| SlotTemplates.InstallPresent | pankaj/management/commands/setup_slots.py:90-101 | writing templates whose keys are all present changes nothing and creates nothing |
| SlotTemplates.Rerun | pankaj/management/commands/setup_slots.py:90-101 | running the command again creates nothing and leaves the table as it was |
| SlotTemplates.InstallFresh | pankaj/management/commands/setup_slots.py:90-101 | on a table holding none of the keys, templates with distinct keys are all created |
| SlotTemplates.Handle | pankaj/management/commands/setup_slots.py:11-101 | the command builds the list and writes it; on an empty table it creates 164 rows; afterwards every template's key is present |
| Payments.Group | pankaj/fix_duplicate.py:27 | a payment is in the result iff it is in the table and belongs to the booking (or, for the null key, to none) |
| Payments.Latest | pankaj/fix_duplicate.py:46 | `latest('created_at')` is a payment of the set with no later one |
| Payments.KeepIsBest | pankaj/fix_duplicate.py:39-59 | the kept payment is one of the booking's; no other has a higher priority (success, then pending, then the rest) and none of the same priority is later |
| Payments.Keep | pankaj/fix_duplicate.py:39-59 | the latest successful payment, else the latest pending one, else the latest of all (definition; its meaning is `KeepIsBest`) |
| Payments.Without | pankaj/fix_duplicate.py:62-67 | deleting the others leaves every payment except the booking's non-kept ones |
| Payments.Relink | pankaj/fix_duplicate.py:83-86 | re-linking changes only the booking of the row with the given key |
| Payments.FixOne | pankaj/fix_duplicate.py:24-103 | one iteration of the loop over bookings: with duplicates the booking records the kept payment's id; otherwise the booking is unchanged; it counts as fixed exactly in the dedup, re-link and create cases, and a skipped booking changes nothing; a new key is used only when a pending cash replacement for the booking's price, id and payment id is appended |
| Payments.Replacement | pankaj/fix_duplicate.py:91-97 | the created payment: the booking's payment id and price, `cash`, pending (definition; its fields are stated by `FixOne`) |
| Payments.FixUpTo | pankaj/fix_duplicate.py:24-103 | the tables and `total_fixed` after the first `n` bookings; the bookings keep their number (meaning in `FixAllBookings` and `StepExtends`) |
| Payments.NeedsCleanup | pankaj/fix_duplicate.py:116-123 | the cleanup runs when some booking has no payment or some payment has no booking (definition; used by `FixThenVerify` and `FixDuplicatePayments`) |
| Payments.FixOneKeeps | pankaj/fix_duplicate.py:41-99 | one iteration keeps the payment table sound and grows no other booking's group; the booking's group becomes exactly the kept payment, the re-linked one or the replacement, by the branch taken, and at most one otherwise |
| Payments.DeduplicateStep | pankaj/fix_duplicate.py:41-75 | collapsing a booking's payments leaves it exactly the kept one, keeps the table sound and grows no other group |
| Payments.RelinkStep | pankaj/fix_duplicate.py:82-88 | re-linking the row with the payment id to a booking without payments makes that row, re-linked, its whole group; the table stays sound and no other group grows |
| Payments.RelinkGroupExact | pankaj/fix_duplicate.py:83-86 | re-linking the one row with a key to a booking without payments makes that row its whole group |
| Payments.WithoutOwnGroup | pankaj/fix_duplicate.py:62-67 | deleting a booking's payments other than the kept one leaves it exactly the kept one |
| Payments.CreateStep | pankaj/fix_duplicate.py:89-99 | appending the replacement to a booking without payments makes it the booking's whole group; the table stays sound and no other group grows |
| Payments.StepKeepsSound | pankaj/fix_duplicate.py:24-103 | one iteration on sound tables keeps them sound and the booking ids unchanged |
| Payments.StepExtends | pankaj/fix_duplicate.py:24-103 | each iteration extends "at most one payment per booking so far" to one more booking |
| Payments.FixAllBookings | pankaj/fix_duplicate.py:19-103 | the loop over bookings computes the run; on sound tables it leaves every booking with at most one payment |
| Payments.FixThenVerify | pankaj/fix_duplicate.py:150-179 | after the loop on sound tables, `verify_fix` finds no duplicate groups; when the cleanup ran, it also finds every reference valid |
| Payments.FixDuplicatePayments | pankaj/fix_duplicate.py:15-125 | the loop, the summary counts and the cleanup when they show an orphan; on sound tables no duplicates remain, and references are valid when the cleanup ran |
| Payments.StaleReferenceSurvives | pankaj/fix_duplicate.py:110-125 | a booking naming a payment id no row has, while holding another payment, is neither fixed nor cleaned, and `verify_fix` reports it |
| Payments.RelinkTakesAnotherBookingsPayment | pankaj/fix_duplicate.py:81-86 | a later booking naming the same payment id takes an earlier booking's payment: booking 0 holds payment "X" after its own turn and none after booking 1's |
| Payments.DeleteOthers | pankaj/fix_duplicate.py:62-67 | the delete loop removes exactly the booking's payments other than the kept one |
| Payments.FixBooking | pankaj/fix_duplicate.py:24-103 | the loop body computes the iteration `FixOne` describes |
| Payments.CleanupOrphanedRecords | pankaj/fix_duplicate.py:127-148 | the cleanup deletes payments without a booking, then clears every payment id that matches no remaining payment |
| Payments.Cleanup | pankaj/fix_duplicate.py:127-148 | the orphans are dropped and each booking's id is cleared exactly when it matches no remaining payment |
| Payments.CleanupMeaning | pankaj/fix_duplicate.py:132-148 | after the cleanup no payment is an orphan and every reference is valid; bookings change only by losing such an id |
| Payments.CleanupIdempotent | pankaj/fix_duplicate.py:127-148 | running the cleanup twice is the same as running it once |
| Payments.SharedGroup | pankaj/fix_duplicate.py:156-158 | two payments with the same booking make a group of two |
| Payments.GroupsSmallNoDuplicates | pankaj/fix_duplicate.py:156-167 | groups of at most one member for every key mean `verify_fix` finds no duplicates |
| Payments.VerifyFix | pankaj/fix_duplicate.py:150-179 | the two checks: no two payments share a booking value, and every booking's payment id matches a payment |

## Left out

- I/O is not modelled: every `print`, `self.stdout.write`, `message_user` and `send_mail`, the e-mail builders and page renders of pankaj/views.py, the admin dashboard counts, and the JSON response shaping (slot ids, `strftime` display strings, `working_hours`, `is_today`, `current_time`).
- The triple-quoted testimonial views (pankaj/views.py:191-496) and the commented-out payment, refund and PDF code (pankaj/views.py:1864-3030) are not live code and are not modelled.
- Persistence is not modelled. ORM queries, `save()` and `transaction.atomic()` become operations on in-memory sequences. A failed run therefore has no rollback in the model.
- The request parsing around the engine is not modelled: `strptime` of the date in the day view, and `int(request.GET[...])` of the month view's year and month. The month view takes integers and raises only for a month that `date` cannot build.
- `AvailableSlots` takes the duration as an integer. The `int(duration)` on pankaj/views.py:1653 raises for text that is not a number, and that crash is not modelled.
- `handle_booking_submission` is not modelled: session handling and the duplicate-submission check are request plumbing. It never consults `is_time_available`.
- The race between listing slots and booking one is not modelled: it is about concurrency.
- The day view's query is ordered by `appointment_time` and the month view's query has no order; the model scans bookings in the order given. That order decides whether a scan raises at all: a conflicting booking before an unreadable one refuses the slot, the other way round the call raises (`Availability.VerdictDependsOnOrder`). The database's order for the unordered query is not modelled.
- `Text.ParseInt` accepts optional white space, an optional sign and ASCII digits. The digit separators (`_`) and non-ASCII digits that Python's `int` also accepts are not modelled.
- The command's `post.save(update_fields=['slug'])` runs the custom `save`, whose excerpt default changes only the in-memory object, because only the slug column is written. The model therefore leaves excerpts unchanged. The migration's historical model has no custom `save` at all.
- Copying the profile picture to the new testimonial is modelled as always succeeding. Its swallowed exception, which leaves the testimonial without an image, is not modelled.
- `Slot.end` is in minutes after the start day's midnight; for a slot the fit test as written lets past midnight the source shows the wrapped time of day.
- Date and time arithmetic past the last supported day (a duration so long that `datetime` overflows) is not modelled.
- `CustomFilters.GetItem`: the values are sequences, so that the `[]` default has the values' type; a dictionary holding other values, for which `get` still returns `[]` on a missing key, is not modelled.
- `Payments.FixOneKeeps`: the run as a whole promises at most one payment per processed booking, not exactly the one its own iteration left, because a later booking naming the same payment id re-links that payment away (`Payments.RelinkTakesAnotherBookingsPayment`).
- `Payments.Latest`: among payments with equal `created_at` the model picks the first in table order. The database's choice among ties is unspecified.
- The `fix_duplicate_payments` loop catches every exception. Only `MultipleObjectsReturned` from `Payment.objects.get` can arise in the model, and that booking is skipped unfixed. Database errors are not modelled.
- The summary counts printed at the end of `setup_slots` (lines 107-110) are output only.
- Payment, booking and testimonial keys are explicit values (a next primary key, a position in the table), not database sequences.
- `Payments.FixDuplicatePayments`: promises valid payment references only when the cleanup ran, because the source does not guarantee them otherwise (see `Payments.StaleReferenceSurvives`).
- The JavaScript front end, `tests.py`, `fix_migrations.py`, `cleanup_slots.py`, `middleware.py`, `signals.py`, `urls.py` and `apps.py` are not part of this model.

## Findings

| source | as written | input that shows it | evidently intended | confidence | as-written member | corrected member |
|---|---|---|---|---|---|---|
| pankaj/views.py:1689 | the day view's fit test compares `slot_end.time()` with 17:00, a time of day that wraps past midnight | on an empty day, a 420-minute request is offered 17:00, ending at midnight | the slot must end by 17:00 on the day it starts | not executed | Availability.FitsAsWritten (Availability.DayViewOffersWrappedSlot) | Availability.Fits (Availability.IntendedDayView) |
| pankaj/views.py:1796 | the month view's fit test compares `end_dt.time()` with 17:00 in the same way | an empty day reports availability for a 481-minute request, from 16:00 to 00:01 | the slot must end by 17:00 on the day it starts | not executed | Availability.MonthViewFindsOverlongSlot (Availability.MidnightWrapAdmitsOverlongSlot) | Availability.Fits (Availability.IntendedMonthView) |
