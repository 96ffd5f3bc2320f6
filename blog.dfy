/** Blog posts and their unique slugs: `BlogPost.save` in pankaj/models.py,
    the `fix_slugs` management command and data migration 0002.

    All three pick a slug the same way: the first of `base`, `base-1`,
    `base-2`, ... that is not taken.  Django's `slugify` is a parameter,
    since nothing about it is relied on.  The table of posts is a sequence
    of post objects, in query order. */
module Blog {
  import opened Base
  import opened Text

  // ---------------------------------------------------------------------------
  // Candidate slugs and the first free one
  // ---------------------------------------------------------------------------

  /** The `k`-th candidate: `base` itself, then `f"{base}-{k}"`. */
  function Candidate(base: string, k: nat): string {
    if k == 0 then base else base + "-" + NatToString(k)
  }

  lemma CandidateInjective(base: string, j: nat, k: nat)
    ensures Candidate(base, j) == Candidate(base, k) ==> j == k
  {
    if Candidate(base, j) == Candidate(base, k) && j != 0 && k != 0 {
      var cj, ck := Candidate(base, j), Candidate(base, k);
      assert cj[|base| + 1..] == NatToString(j);
      assert ck[|base| + 1..] == NatToString(k);
      NatToStringInjective(j, k);
    }
  }

  ghost function Candidates(base: string, n: nat): set<string> {
    set j | 0 <= j < n :: Candidate(base, j)
  }

  /** The first `n` candidates are `n` different strings. */
  lemma {:induction false} CandidatesCard(base: string, n: nat)
    ensures |Candidates(base, n)| == n
  {
    if n > 0 {
      CandidatesCard(base, n - 1);
      CandidatesGrow(base, n - 1);
    }
  }

  lemma CandidatesGrow(base: string, n: nat)
    ensures Candidate(base, n) !in Candidates(base, n)
    ensures Candidates(base, n + 1) == Candidates(base, n) + {Candidate(base, n)}
  {
    forall j | 0 <= j < n
      ensures Candidate(base, j) != Candidate(base, n)
    {
      CandidateInjective(base, j, n);
    }
  }

  lemma {:induction false} SubsetCard<T>(a: set<T>, b: set<T>)
    requires a <= b
    ensures |a| <= |b|
    decreases a
  {
    if a != {} {
      var x :| x in a;
      SubsetCard(a - {x}, b - {x});
    }
  }

  /** If the first `n` candidates are all taken, at least `n` slugs are taken. */
  lemma TakenBound(base: string, taken: set<string>, n: nat)
    requires forall j :: 0 <= j < n ==> Candidate(base, j) in taken
    ensures n <= |taken|
  {
    CandidatesCard(base, n);
    SubsetCard(Candidates(base, n), taken);
  }

  /** The first candidate from the `k`-th on that is not taken. */
  function FirstFreeFrom(base: string, taken: set<string>, k: nat): string
    requires forall j :: 0 <= j < k ==> Candidate(base, j) in taken
    decreases |taken| - k
  {
    if Candidate(base, k) !in taken then Candidate(base, k)
    else
      TakenBound(base, taken, k + 1);
      FirstFreeFrom(base, taken, k + 1)
  }

  /** The first candidate that is not taken. */
  function FirstFree(base: string, taken: set<string>): string {
    FirstFreeFrom(base, taken, 0)
  }

  lemma {:induction false} FirstFreeFromIsFirstFree(base: string, taken: set<string>, k: nat)
    requires forall j :: 0 <= j < k ==> Candidate(base, j) in taken
    ensures var r := FirstFreeFrom(base, taken, k);
      r !in taken &&
      exists n: nat :: k <= n && r == Candidate(base, n) && forall j :: 0 <= j < n ==> Candidate(base, j) in taken
    decreases |taken| - k
  {
    if Candidate(base, k) in taken {
      TakenBound(base, taken, k + 1);
      FirstFreeFromIsFirstFree(base, taken, k + 1);
    }
  }

  /** The first free candidate is not taken, and every candidate before it is. */
  lemma FirstFreeIsFirstFree(base: string, taken: set<string>)
    ensures FirstFree(base, taken) !in taken
    ensures exists n: nat ::
      FirstFree(base, taken) == Candidate(base, n) && (forall j :: 0 <= j < n ==> Candidate(base, j) in taken)
  {
    FirstFreeFromIsFirstFree(base, taken, 0);
  }

  /** The fixed point is unique: a free candidate preceded only by taken ones
      is the first free one. */
  lemma FirstFreeUnique(base: string, taken: set<string>, n: nat)
    requires Candidate(base, n) !in taken
    requires forall j :: 0 <= j < n ==> Candidate(base, j) in taken
    ensures FirstFree(base, taken) == Candidate(base, n)
  {
    var r := FirstFree(base, taken);
    FirstFreeIsFirstFree(base, taken);
    var m: nat :| r == Candidate(base, m) && forall j :: 0 <= j < m ==> Candidate(base, j) in taken;
    CandidateInjective(base, m, n);
  }

  /** A base that is not taken is its own slug. */
  lemma FirstFreeOfFreeBase(base: string, taken: set<string>)
    requires base !in taken
    ensures FirstFree(base, taken) == base
  {
    FirstFreeUnique(base, taken, 0);
  }

  /** The de-duplication loop: `slug = base`, then `f"{base}-{counter}"`
      while the slug is taken. */
  method FirstFreeSlug(base: string, taken: set<string>) returns (slug: string)
    ensures slug == FirstFree(base, taken)
  {
    slug := base;
    var counter := 1;
    while slug in taken
      invariant counter >= 1 && slug == Candidate(base, counter - 1)
      invariant forall j :: 0 <= j < counter - 1 ==> Candidate(base, j) in taken
      invariant FirstFreeFrom(base, taken, counter - 1) == FirstFree(base, taken)
      decreases |taken| - counter
    {
      TakenBound(base, taken, counter);
      slug := base + "-" + NatToString(counter);
      counter := counter + 1;
    }
  }

  // ---------------------------------------------------------------------------
  // Blank slugs and their replacement bases
  // ---------------------------------------------------------------------------

  lemma NotBlankExtended(s: string, t: string)
    requires !IsBlank(s)
    ensures !IsBlank(s + t)
  {
    if AllSpace(s + t) {
      forall i | 0 <= i < |s| ensures IsSpace(s[i]) {
        assert s[i] == (s + t)[i];
      }
    }
  }

  /** Every candidate of a non-blank base is non-blank. */
  lemma CandidateNotBlank(base: string, k: nat)
    requires !IsBlank(base)
    ensures !IsBlank(Candidate(base, k))
  {
    if k > 0 {
      NotBlankExtended(base, "-" + NatToString(k));
      assert Candidate(base, k) == base + ("-" + NatToString(k));
    }
  }

  lemma FirstFreeNotBlank(base: string, taken: set<string>)
    requires !IsBlank(base)
    ensures !IsBlank(FirstFree(base, taken))
  {
    FirstFreeIsFirstFree(base, taken);
    var n: nat :| FirstFree(base, taken) == Candidate(base, n);
    CandidateNotBlank(base, n);
  }

  /** `f"blog-post-{post.id}"`. */
  function FallbackSlug(id: nat): (r: string)
    ensures !IsBlank(r)
  {
    var r := "blog-post-" + NatToString(id);
    assert r[0] == 'b';
    r
  }

  /** Which of the two repair scripts picks the base. */
  datatype Script = FixSlugsCommand | FixSlugsMigration

  /** The base a repaired post starts from.  The command slugifies any
      non-empty title; the migration only one with a non-space character.
      Either falls back to `blog-post-{id}` when the result is blank. */
  function RepairBase(script: Script, slugify: string -> string, title: string, id: nat): string {
    var titled := match script
      case FixSlugsCommand => title != ""
      case FixSlugsMigration => !IsBlank(title);
    var b := if titled then slugify(title) else FallbackSlug(id);
    if IsBlank(b) then FallbackSlug(id) else b
  }

  /** The base is never blank; it is the slugified title only when the
      script accepts the title, and `blog-post-{id}` otherwise. */
  lemma RepairBaseFacts(script: Script, slugify: string -> string, title: string, id: nat)
    ensures var b := RepairBase(script, slugify, title, id);
      && !IsBlank(b)
      && (b == FallbackSlug(id) || b == slugify(title))
      && (b == slugify(title) && b != FallbackSlug(id) ==>
            match script
            case FixSlugsCommand => title != ""
            case FixSlugsMigration => !IsBlank(title))
  {
  }

  /** The two scripts pick the same base except for a title made only of
      white space, which the command slugifies and the migration does not. */
  lemma ScriptsDifferOnlyOnWhitespaceTitles(slugify: string -> string, title: string, id: nat)
    ensures !(title != "" && IsBlank(title)) ==>
      RepairBase(FixSlugsCommand, slugify, title, id) == RepairBase(FixSlugsMigration, slugify, title, id)
    ensures title != "" && IsBlank(title) ==>
      RepairBase(FixSlugsMigration, slugify, title, id) == FallbackSlug(id)
  {
  }

  // ---------------------------------------------------------------------------
  // The repair, as a function on the slug column
  // ---------------------------------------------------------------------------

  /** The slugs of every post but the `i`-th:
      `BlogPost.objects.filter(slug=slug).exclude(id=post.id)`. */
  function Others(slugs: seq<string>, i: int): set<string> {
    set j | 0 <= j < |slugs| && j != i :: slugs[j]
  }

  /** Posts `i`, `i+1`, ... handled in order: a blank slug is replaced by the
      first candidate of its base that no other post holds at that moment. */
  function RepairFrom(slugs: seq<string>, bases: seq<string>, i: nat): (r: seq<string>)
    requires |bases| == |slugs| && i <= |slugs|
    ensures |r| == |slugs|
    decreases |slugs| - i
  {
    if i == |slugs| then slugs
    else if IsBlank(slugs[i]) then RepairFrom(slugs[i := FirstFree(bases[i], Others(slugs, i))], bases, i + 1)
    else RepairFrom(slugs, bases, i + 1)
  }

  function CountBlank(slugs: seq<string>): (n: nat)
    ensures n <= |slugs|
  {
    if slugs == [] then 0 else (if IsBlank(slugs[0]) then 1 else 0) + CountBlank(slugs[1..])
  }

  /** The repair touches no post before `i` and keeps every non-blank slug. */
  lemma {:induction false} RepairKeeps(slugs: seq<string>, bases: seq<string>, i: nat)
    requires |bases| == |slugs| && i <= |slugs|
    ensures |RepairFrom(slugs, bases, i)| == |slugs|
    ensures forall k :: 0 <= k < |slugs| && (k < i || !IsBlank(slugs[k])) ==> RepairFrom(slugs, bases, i)[k] == slugs[k]
    decreases |slugs| - i
  {
    if i < |slugs| {
      if IsBlank(slugs[i]) {
        RepairKeeps(slugs[i := FirstFree(bases[i], Others(slugs, i))], bases, i + 1);
      } else {
        RepairKeeps(slugs, bases, i + 1);
      }
    }
  }

  /** With non-blank bases, no slug from `i` on is blank after the repair. */
  lemma {:induction false} RepairLeavesNoBlank(slugs: seq<string>, bases: seq<string>, i: nat)
    requires |bases| == |slugs| && i <= |slugs|
    requires forall k :: 0 <= k < |bases| ==> !IsBlank(bases[k])
    requires forall k :: 0 <= k < i ==> !IsBlank(slugs[k])
    ensures forall k :: 0 <= k < |slugs| ==> !IsBlank(RepairFrom(slugs, bases, i)[k])
    decreases |slugs| - i
  {
    RepairKeeps(slugs, bases, i);
    if i < |slugs| {
      if IsBlank(slugs[i]) {
        var s := FirstFree(bases[i], Others(slugs, i));
        FirstFreeNotBlank(bases[i], Others(slugs, i));
        RepairLeavesNoBlank(slugs[i := s], bases, i + 1);
      } else {
        RepairLeavesNoBlank(slugs, bases, i + 1);
      }
    }
  }

  /** A column without blank slugs is left exactly as it is, so a second run
      of either script changes nothing. */
  lemma {:induction false} RepairOfNoBlank(slugs: seq<string>, bases: seq<string>, i: nat)
    requires |bases| == |slugs| && i <= |slugs|
    requires forall k :: 0 <= k < |slugs| ==> !IsBlank(slugs[k])
    ensures RepairFrom(slugs, bases, i) == slugs
    decreases |slugs| - i
  {
    if i < |slugs| {
      RepairOfNoBlank(slugs, bases, i + 1);
    }
  }

  lemma RepairIdempotent(slugs: seq<string>, bases: seq<string>)
    requires |bases| == |slugs|
    requires forall k :: 0 <= k < |bases| ==> !IsBlank(bases[k])
    ensures RepairFrom(RepairFrom(slugs, bases, 0), bases, 0) == RepairFrom(slugs, bases, 0)
  {
    RepairKeeps(slugs, bases, 0);
    RepairLeavesNoBlank(slugs, bases, 0);
    RepairOfNoBlank(RepairFrom(slugs, bases, 0), bases, 0);
  }

  /** Every repaired slug differs from every other post's final slug, so two
      blank posts with the same title end up with different slugs. */
  lemma {:induction false} RepairedAreDistinct(orig: seq<string>, slugs: seq<string>, bases: seq<string>, i: nat)
    requires |orig| == |slugs| == |bases| && i <= |slugs|
    requires forall k :: i <= k < |slugs| ==> slugs[k] == orig[k]
    requires forall k, j :: 0 <= k < i && 0 <= j < |slugs| && k != j && IsBlank(orig[k]) ==> slugs[k] != slugs[j]
    ensures var r := RepairFrom(slugs, bases, i);
      |r| == |slugs| &&
      forall k, j :: 0 <= k < |slugs| && 0 <= j < |slugs| && k != j && IsBlank(orig[k]) ==> r[k] != r[j]
    decreases |slugs| - i
  {
    RepairKeeps(slugs, bases, i);
    if i < |slugs| {
      if IsBlank(slugs[i]) {
        var others := Others(slugs, i);
        var s := FirstFree(bases[i], others);
        FirstFreeIsFirstFree(bases[i], others);
        var slugs' := slugs[i := s];
        forall k, j | 0 <= k < i + 1 && 0 <= j < |slugs| && k != j && IsBlank(orig[k])
          ensures slugs'[k] != slugs'[j]
        {
          if k == i {
            assert slugs[j] in others;
          } else if j == i {
            assert slugs[k] in others;
          }
        }
        RepairedAreDistinct(orig, slugs', bases, i + 1);
      } else {
        RepairedAreDistinct(orig, slugs, bases, i + 1);
      }
    }
  }

  /** With non-blank bases, a post's slug changes exactly when it was blank,
      so the number of fixed posts is the number of changed slugs. */
  lemma RepairChangesExactlyBlank(slugs: seq<string>, bases: seq<string>)
    requires |bases| == |slugs|
    requires forall k :: 0 <= k < |bases| ==> !IsBlank(bases[k])
    ensures forall k :: 0 <= k < |slugs| ==> (RepairFrom(slugs, bases, 0)[k] != slugs[k] <==> IsBlank(slugs[k]))
  {
    RepairKeeps(slugs, bases, 0);
    RepairLeavesNoBlank(slugs, bases, 0);
  }

  lemma RepairStepBlank(cur: seq<string>, bases: seq<string>, i: nat, slug: string)
    requires |bases| == |cur| && i < |cur| && IsBlank(cur[i])
    requires slug == FirstFree(bases[i], Others(cur, i))
    ensures RepairFrom(cur, bases, i) == RepairFrom(cur[i := slug], bases, i + 1)
  {
  }

  lemma RepairStepKeep(cur: seq<string>, bases: seq<string>, i: nat)
    requires |bases| == |cur| && i < |cur| && !IsBlank(cur[i])
    ensures RepairFrom(cur, bases, i) == RepairFrom(cur, bases, i + 1)
  {
  }

  lemma RepairOfComplete(slugs: seq<string>, bases: seq<string>)
    requires |bases| == |slugs|
    ensures RepairFrom(slugs, bases, |slugs|) == slugs
  {
  }

  lemma CountBlankStep(s: seq<string>, i: nat)
    requires i < |s|
    ensures CountBlank(s[i..]) == (if IsBlank(s[i]) then 1 else 0) + CountBlank(s[i + 1..])
  {
    assert s[i..][1..] == s[i + 1..];
  }

  // ---------------------------------------------------------------------------
  // The BlogPost object
  // ---------------------------------------------------------------------------

  const ExcerptLength := 300

  /** `if not self.excerpt and self.content: self.excerpt = self.content[:300] + "..."`. */
  function DefaultExcerpt(excerpt: string, content: string): (r: string)
    ensures excerpt != "" ==> r == excerpt
    ensures excerpt == "" && content == "" ==> r == ""
    ensures excerpt == "" && content != "" ==>
      && |r| == Min(|content|, ExcerptLength) + 3 <= ExcerptLength + 3
      && r[..|r| - 3] == content[..|r| - 3]
      && r[|r| - 3..] == "..."
  {
    if excerpt == "" && content != "" then content[..Min(|content|, ExcerptLength)] + "..." else excerpt
  }

  /** A defaulted excerpt is kept by the next save. */
  lemma DefaultExcerptIdempotent(excerpt: string, content: string)
    ensures DefaultExcerpt(DefaultExcerpt(excerpt, content), content) == DefaultExcerpt(excerpt, content)
  {
  }

  class BlogPost {
    const id: nat
    const title: string
    var slug: string
    const content: string
    var excerpt: string

    constructor (id: nat, title: string, slug: string, content: string, excerpt: string)
      ensures this.id == id && this.title == title && this.slug == slug
      ensures this.content == content && this.excerpt == excerpt
    {
      this.id := id;
      this.title := title;
      this.slug := slug;
      this.content := content;
      this.excerpt := excerpt;
    }

    /** `save`: an empty slug becomes the first free candidate of
        `slugify(title)` among the slugs `existing` at save time; a non-empty
        slug is never changed; an empty excerpt is defaulted from the content. */
    method Save(slugify: string -> string, existing: set<string>)
      modifies this
      ensures old(slug) != "" ==> slug == old(slug)
      ensures old(slug) == "" ==> slug == FirstFree(slugify(title), existing) && slug !in existing
      ensures excerpt == DefaultExcerpt(old(excerpt), content)
    {
      if slug == "" {
        var baseSlug := slugify(title);
        FirstFreeIsFirstFree(baseSlug, existing);
        slug := FirstFreeSlug(baseSlug, existing);
      }
      if excerpt == "" && content != "" {
        excerpt := content[..Min(|content|, ExcerptLength)] + "...";
      }
    }
  }

  function SlugsOf(posts: seq<BlogPost>): (r: seq<string>)
    reads set p | p in posts
    ensures |r| == |posts| && forall k :: 0 <= k < |posts| ==> r[k] == posts[k].slug
  {
    if posts == [] then [] else [posts[0].slug] + SlugsOf(posts[1..])
  }

  function TitlesOf(posts: seq<BlogPost>): (r: seq<string>)
    ensures |r| == |posts| && forall k :: 0 <= k < |posts| ==> r[k] == posts[k].title
  {
    if posts == [] then [] else [posts[0].title] + TitlesOf(posts[1..])
  }

  function IdsOf(posts: seq<BlogPost>): (r: seq<nat>)
    ensures |r| == |posts| && forall k :: 0 <= k < |posts| ==> r[k] == posts[k].id
  {
    if posts == [] then [] else [posts[0].id] + IdsOf(posts[1..])
  }

  /** The base of every post, from its title and id. */
  function Bases(script: Script, slugify: string -> string, titles: seq<string>, ids: seq<nat>): (r: seq<string>)
    requires |titles| == |ids|
    ensures |r| == |titles|
    ensures forall k :: 0 <= k < |titles| ==> r[k] == RepairBase(script, slugify, titles[k], ids[k])
  {
    seq(|titles|, k requires 0 <= k < |titles| => RepairBase(script, slugify, titles[k], ids[k]))
  }

  /** One iteration of the loop: the `i`-th post, if its slug is empty or
      white space, gets the first candidate of its base that no other post
      holds, and the call reports whether it was fixed.  `slugs` is the
      slug column before the call. */
  method RepairPost(posts: seq<BlogPost>, i: nat, script: Script, slugify: string -> string,
                    ghost slugs: seq<string>) returns (fixed: bool)
    requires i < |posts| && |slugs| == |posts|
    requires forall k :: 0 <= k < |posts| ==> posts[k].slug == slugs[k]
    modifies posts[i]
    ensures fixed == IsBlank(slugs[i])
    ensures posts[i].excerpt == old(posts[i].excerpt)
    ensures posts[i].slug ==
      if fixed then FirstFree(RepairBase(script, slugify, posts[i].title, posts[i].id), Others(slugs, i)) else slugs[i]
  {
    var post := posts[i];
    fixed := IsBlank(post.slug);
    if fixed {
      var taken := set j | 0 <= j < |posts| && j != i :: posts[j].slug;
      assert taken == Others(slugs, i) by {
        forall x | x in taken ensures x in Others(slugs, i) {
          var j :| 0 <= j < |posts| && j != i && posts[j].slug == x;
          assert slugs[j] == x;
        }
      }
      var baseSlug := RepairBase(script, slugify, post.title, post.id);
      post.slug := FirstFreeSlug(baseSlug, taken);
    }
  }

  /** `RepairPost` on the `i`-th post, with the slug column before and after
      the call: the repair still to come is unchanged. */
  method RepairNext(posts: seq<BlogPost>, i: nat, script: Script, slugify: string -> string,
                    ghost cur: seq<string>, ghost bases: seq<string>) returns (fixed: bool, ghost cur': seq<string>)
    requires forall k, j :: 0 <= k < j < |posts| ==> posts[k] != posts[j]
    requires i < |posts| && |cur| == |posts| && |bases| == |posts|
    requires forall k :: 0 <= k < |posts| ==> posts[k].slug == cur[k]
    requires bases[i] == RepairBase(script, slugify, posts[i].title, posts[i].id)
    modifies posts
    ensures fixed == IsBlank(cur[i])
    ensures |cur'| == |cur| && forall k :: 0 <= k < |posts| && k != i ==> cur'[k] == cur[k]
    ensures forall k :: 0 <= k < |posts| ==> posts[k].slug == cur'[k] && posts[k].excerpt == old(posts[k].excerpt)
    ensures RepairFrom(cur', bases, i + 1) == RepairFrom(cur, bases, i)
  {
    fixed := RepairPost(posts, i, script, slugify, cur);
    cur' := cur[i := posts[i].slug];
    if fixed {
      RepairStepBlank(cur, bases, i, posts[i].slug);
    } else {
      assert cur' == cur;
      RepairStepKeep(cur, bases, i);
    }
  }

  /** The loop of `fix_slugs` (command and migration alike, differing only in
      `script`): each post with an empty or white-space-only slug, in order,
      gets the first candidate of its base that no other post holds, and is
      counted.  Ids are the table's primary key. */
  method RepairSlugs(posts: seq<BlogPost>, script: Script, slugify: string -> string) returns (fixedCount: nat)
    requires forall k, j :: 0 <= k < j < |posts| ==> posts[k] != posts[j] && posts[k].id != posts[j].id
    modifies posts
    ensures forall k :: 0 <= k < |posts| ==> posts[k].excerpt == old(posts[k].excerpt)
    ensures forall k :: 0 <= k < |posts| ==>
      posts[k].slug == RepairFrom(old(SlugsOf(posts)), Bases(script, slugify, TitlesOf(posts), IdsOf(posts)), 0)[k]
    ensures fixedCount == CountBlank(old(SlugsOf(posts)))
  {
    fixedCount := RepairAll(posts, script, slugify, SlugsOf(posts), Bases(script, slugify, TitlesOf(posts), IdsOf(posts)));
  }

  /** The loop of `RepairSlugs`, with `orig` the slug column it starts from
      and `bases` the base of every post. */
  method RepairAll(posts: seq<BlogPost>, script: Script, slugify: string -> string,
                   ghost orig: seq<string>, ghost bases: seq<string>)
    returns (fixedCount: nat)
    requires forall k, j :: 0 <= k < j < |posts| ==> posts[k] != posts[j]
    requires |orig| == |posts| && forall k :: 0 <= k < |posts| ==> posts[k].slug == orig[k]
    requires |bases| == |posts| &&
      forall k :: 0 <= k < |posts| ==> bases[k] == RepairBase(script, slugify, posts[k].title, posts[k].id)
    modifies posts
    ensures forall k :: 0 <= k < |posts| ==> posts[k].excerpt == old(posts[k].excerpt)
    ensures forall k :: 0 <= k < |posts| ==> posts[k].slug == RepairFrom(orig, bases, 0)[k]
    ensures fixedCount == CountBlank(orig)
  {
    ghost var cur := orig;
    fixedCount := 0;
    var i := 0;
    while i < |posts|
      invariant 0 <= i <= |posts| && |cur| == |posts|
      invariant forall k :: 0 <= k < |posts| ==> posts[k].excerpt == old(posts[k].excerpt)
      invariant forall k :: 0 <= k < |posts| ==> posts[k].slug == cur[k]
      invariant forall k :: i <= k < |posts| ==> cur[k] == orig[k]
      invariant RepairFrom(cur, bases, i) == RepairFrom(orig, bases, 0)
      invariant fixedCount + CountBlank(orig[i..]) == CountBlank(orig)
    {
      CountBlankStep(orig, i);
      assert cur[i] == orig[i];
      var fixed;
      fixed, cur := RepairNext(posts, i, script, slugify, cur, bases);
      if fixed {
        fixedCount := fixedCount + 1;
      }
      i := i + 1;
    }
    RepairOfComplete(cur, bases);
  }
}
