/**
 * The portfolio's list of "systems" (topics), the strings the headline
 * animator is given, and the helpers that unlock or lock one system and
 * compute the list of unlocked ids to persist (app/page.tsx:7-132).
 *
 * Browser storage is not modelled: the value the helpers would write is
 * returned, and the ids read back at start-up are an input.
 */
module Systems {
  import opened Wrappers

  datatype System = System(
    id: string,
    title: string,
    description: string,
    tags: Option<seq<string>>,
    unlocked: bool)

  /** Suffix shown after the title of a locked system. */
  const LockedHint: string := " \U{2014} Locked (unlock to reveal)"

  /** The headline entry for one system. */
  function Label(s: System): string {
    if s.unlocked then s.title + ": " + s.description else s.title + LockedHint
  }

  /** The list handed to the headline animator: one entry per system, in order. */
  function Names(systems: seq<System>): (r: seq<string>)
    ensures |r| == |systems|
    ensures forall i :: 0 <= i < |systems| ==> r[i] == Label(systems[i])
  {
    if systems == [] then [] else [Label(systems[0])] + Names(systems[1..])
  }

  /** Index of the first system with the given id, as `Array.prototype.find` looks it up. */
  function Find(systems: seq<System>, id: string): (r: Option<nat>)
    ensures r.Some? ==> r.value < |systems| && systems[r.value].id == id
    ensures r.Some? ==> forall j :: 0 <= j < r.value ==> systems[j].id != id
    ensures r.None? <==> forall j :: 0 <= j < |systems| ==> systems[j].id != id
  {
    if systems == [] then None
    else if systems[0].id == id then Some(0)
    else
      match Find(systems[1..], id)
      case None => None
      case Some(k) => Some(k + 1)
  }

  /** The list after the first system with `id` has its flag set to `flag`. */
  function WithFlag(systems: seq<System>, id: string, flag: bool): (r: seq<System>)
    ensures |r| == |systems|
    ensures Find(systems, id).None? ==> r == systems
    ensures Find(systems, id).Some? ==>
      var k := Find(systems, id).value;
      r[k] == systems[k].(unlocked := flag) &&
      forall j :: 0 <= j < |systems| && j != k ==> r[j] == systems[j]
  {
    match Find(systems, id)
    case None => systems
    case Some(k) => systems[k := systems[k].(unlocked := flag)]
  }

  /** The ids of the unlocked systems, in list order: the value persisted after a toggle. */
  function UnlockedIds(systems: seq<System>): (r: seq<string>)
    ensures |r| <= |systems|
    ensures forall x :: x in r <==> exists k :: 0 <= k < |systems| && systems[k].unlocked && systems[k].id == x
  {
    if systems == [] then []
    else
      var rest := UnlockedIds(systems[1..]);
      if systems[0].unlocked then [systems[0].id] + rest else rest
  }

  /** One system after the start-up merge with the stored ids. */
  function MergeOne(s: System, storedIds: seq<string>): System {
    s.(unlocked := s.id in storedIds || s.unlocked)
  }

  /** The whole list after the start-up merge with the stored ids. */
  function Merged(systems: seq<System>, storedIds: seq<string>): (r: seq<System>)
    ensures |r| == |systems|
    ensures forall i :: 0 <= i < |systems| ==>
      r[i].id == systems[i].id && r[i].title == systems[i].title &&
      r[i].description == systems[i].description && r[i].tags == systems[i].tags
    ensures forall i :: 0 <= i < |systems| ==>
      (r[i].unlocked <==> systems[i].id in storedIds || systems[i].unlocked)
  {
    seq(|systems|, i requires 0 <= i < |systems| => MergeOne(systems[i], storedIds))
  }

  predicate UniqueIds(systems: seq<System>) {
    forall i, j :: 0 <= i < j < |systems| ==> systems[i].id != systems[j].id
  }

  // ---------------------------------------------------------------------------
  // Properties of the helpers
  // ---------------------------------------------------------------------------

  /** The lookup reads the ids only. */
  lemma {:induction false} FindReadsIdsOnly(a: seq<System>, b: seq<System>, id: string)
    requires |a| == |b|
    requires forall j :: 0 <= j < |a| ==> a[j].id == b[j].id
    ensures Find(a, id) == Find(b, id)
    decreases |a|
  {
    if a != [] {
      FindReadsIdsOnly(a[1..], b[1..], id);
    }
  }

  /** An entry starts with the title and reveals the description exactly when the system is unlocked. */
  lemma LabelRevealsIffUnlocked(s: System)
    ensures s.title <= Label(s)
    ensures Label(s) == s.title + ": " + s.description <==> s.unlocked
  {
    if !s.unlocked {
      assert (s.title + ": " + s.description)[|s.title|] == ':';
      assert (s.title + LockedHint)[|s.title|] == ' ';
    }
  }

  /** Flags do not take part in the lookup, so toggling never moves it. */
  lemma FindIgnoresFlags(systems: seq<System>, id: string, other: string, flag: bool)
    ensures Find(WithFlag(systems, other, flag), id) == Find(systems, id)
  {
    FindReadsIdsOnly(WithFlag(systems, other, flag), systems, id);
  }

  /** A second toggle of the same id overrides the first. */
  lemma LastToggleWins(systems: seq<System>, id: string, first: bool, second: bool)
    ensures WithFlag(WithFlag(systems, id, first), id, second) == WithFlag(systems, id, second)
  {
    FindIgnoresFlags(systems, id, id, first);
  }

  /** After a successful unlock the persisted list contains the id. */
  lemma UnlockPersistsId(systems: seq<System>, id: string)
    requires Find(systems, id).Some?
    ensures id in UnlockedIds(WithFlag(systems, id, true))
  {
    var k := Find(systems, id).value;
    var t := WithFlag(systems, id, true);
    assert t[k].unlocked && t[k].id == id;
  }

  /** With unique ids, after a lock the persisted list no longer contains the id. */
  lemma LockDropsId(systems: seq<System>, id: string)
    requires UniqueIds(systems)
    ensures id !in UnlockedIds(WithFlag(systems, id, false))
  {
    var t := WithFlag(systems, id, false);
    match Find(systems, id)
    case None =>
    case Some(k) =>
      forall j | 0 <= j < |t| && t[j].id == id ensures !t[j].unlocked {
        assert j == k;
      }
  }

  /** The persisted list respects list order: it distributes over concatenation. */
  lemma {:induction false} UnlockedIdsAppend(a: seq<System>, b: seq<System>)
    ensures UnlockedIds(a + b) == UnlockedIds(a) + UnlockedIds(b)
    decreases |a|
  {
    if a == [] {
      assert a + b == b;
    } else {
      assert (a + b)[1..] == a[1..] + b;
      UnlockedIdsAppend(a[1..], b);
    }
  }

  /** The start-up merge never locks a system. */
  lemma MergeNeverLocks(systems: seq<System>, storedIds: seq<string>)
    ensures forall i :: 0 <= i < |systems| && systems[i].unlocked ==> Merged(systems, storedIds)[i].unlocked
  {
  }

  /** Stored ids that name no system have no effect on the merge. */
  lemma MergeIgnoresUnknownIds(systems: seq<System>, storedIds: seq<string>, unknown: seq<string>)
    requires forall x :: x in unknown ==> Find(systems, x).None?
    ensures Merged(systems, storedIds + unknown) == Merged(systems, storedIds)
  {
    var l, r := Merged(systems, storedIds + unknown), Merged(systems, storedIds);
    forall i | 0 <= i < |systems| ensures l[i] == r[i] {
      assert systems[i].id !in unknown;
    }
  }

  /** Merging twice is merging once with both lists of ids. */
  lemma MergeTwice(systems: seq<System>, first: seq<string>, second: seq<string>)
    ensures Merged(Merged(systems, first), second) == Merged(systems, first + second)
  {
    var l, r := Merged(Merged(systems, first), second), Merged(systems, first + second);
    forall i | 0 <= i < |systems| ensures l[i] == r[i] {
      assert systems[i].id in first + second <==> systems[i].id in first || systems[i].id in second;
    }
  }

  /**
   * A stored id that unlocks a locked system changes that system's entry, so
   * a list of entries derived before the merge no longer matches the flags.
   */
  lemma StoredUnlockChangesEntry(systems: seq<System>, storedIds: seq<string>, i: nat)
    requires i < |systems| && !systems[i].unlocked && systems[i].id in storedIds
    ensures Names(Merged(systems, storedIds))[i] != Names(systems)[i]
  {
    var m := Merged(systems, storedIds);
    LabelRevealsIffUnlocked(systems[i]);
    LabelRevealsIffUnlocked(m[i]);
  }

  // ---------------------------------------------------------------------------
  // The page's catalogue
  // ---------------------------------------------------------------------------

  /** The eleven systems as declared in app/page.tsx:15-94, before any stored ids are merged. */
  const Catalog: seq<System> :=
    [SystemsEngineering, Frontend, Backend, DevOps, Logic, Design,
     Entrepreneurship, Biology, Chemistry, Physics, Research]

  const SystemsEngineering := System("systems-engineering", "Systems Engineering",
    "Architecture, observability, fault tolerance, scalability, systems design",
    Some(["architecture", "observability", "scalability"]), true)
  const Frontend := System("frontend", "Front-end Development",
    "TypeScript, React, Next.js, component design, accessibility, performance",
    Some(["react", "ts", "design", "a11y"]), true)
  const Backend := System("backend", "Back-end Development",
    "APIs, databases, microservices, tRPC/GraphQL/REST, type-safe contracts",
    Some(["api", "db", "microservices"]), false)
  const DevOps := System("devops", "DevOps & Platform",
    "CI/CD, infra as code, containerization, observability, deployment strategies",
    Some(["ci/cd", "k8s", "terraform"]), false)
  const Logic := System("logic", "Logic & Algorithms",
    "Formal reasoning, algorithm design, complexity, correctness",
    Some(["algorithms", "theory"]), false)
  const Design := System("design", "Product & Visual Design",
    "Design systems, component-driven UX, Figma collaboration, UX research",
    Some(["design-systems", "ux"]), true)
  const Entrepreneurship := System("entrepreneurship", "Entrepreneurship",
    "Product-market fit, go-to-market, growth experiments, business strategy",
    Some(["startup", "growth"]), false)
  const Biology := System("biology", "Biology & Anatomy",
    "Systems biology, anatomy fundamentals, computational biology curiosities",
    Some(["biology", "anatomy"]), false)
  const Chemistry := System("chemistry", "Chemistry",
    "Physical & organic chemistry basics, computational chemistry interests",
    Some(["chemistry"]), false)
  const Physics := System("physics", "Physics",
    "Classical mechanics, electromagnetism, mathematical physics exploration",
    Some(["physics", "math"]), false)
  const Research := System("research", "Independent Research",
    "Self-driven research: experiments, papers, reproducibility, learning on own time",
    Some(["research", "papers"]), true)

  /** The catalogue gives the typewriter one label per system, so its list of names is never empty. */
  lemma CatalogFeedsTypewriter()
    ensures |Names(Catalog)| == 11
    ensures Names(Catalog)[0] == Catalog[0].title + ": " + Catalog[0].description
    ensures Names(Catalog)[2] == Catalog[2].title + LockedHint
  {
  }

  /** No two catalogue entries share an id, so locking one of them always removes it from storage. */
  lemma CatalogIdsUnique()
    ensures UniqueIds(Catalog)
  {
  }

  /** Before any merge, the systems shown in full are the four declared unlocked. */
  lemma CatalogUnlocked()
    ensures UnlockedIds(Catalog) == ["systems-engineering", "frontend", "design", "research"]
  {
    var tail := [Entrepreneurship, Biology, Chemistry, Physics, Research];
    var head := [SystemsEngineering, Frontend, Backend, DevOps, Logic, Design];
    assert UnlockedIds(tail[4..]) == ["research"];
    assert UnlockedIds(tail[3..]) == ["research"];
    assert UnlockedIds(tail[2..]) == ["research"];
    assert UnlockedIds(tail[1..]) == ["research"];
    assert UnlockedIds(tail) == ["research"];
    assert UnlockedIds(head[5..]) == ["design"];
    assert UnlockedIds(head[4..]) == ["design"];
    assert UnlockedIds(head[3..]) == ["design"];
    assert UnlockedIds(head[2..]) == ["design"];
    assert UnlockedIds(head[1..]) == ["frontend", "design"];
    assert UnlockedIds(head) == ["systems-engineering", "frontend", "design"];
    assert Catalog == head + tail;
    UnlockedIdsAppend(head, tail);
  }

  // ---------------------------------------------------------------------------
  // The module-level list, updated in place
  // ---------------------------------------------------------------------------

  /** The page's mutable `systems` array and the helpers that update it. */
  class Registry {
    var systems: seq<System>

    constructor (initial: seq<System>)
      ensures systems == initial
    {
      systems := initial;
    }

    /** `unlockSystem`: returns the value written to storage, or None when the id is unknown. */
    method Unlock(id: string) returns (persisted: Option<seq<string>>)
      modifies this
      ensures systems == WithFlag(old(systems), id, true)
      ensures persisted == if Find(old(systems), id).None? then None else Some(UnlockedIds(systems))
    {
      var found := Find(systems, id);
      if found.None? {
        return None;
      }
      var k := found.value;
      systems := systems[k := systems[k].(unlocked := true)];
      persisted := Some(UnlockedIds(systems));
    }

    /** `lockSystem`: returns the value written to storage, or None when the id is unknown. */
    method Lock(id: string) returns (persisted: Option<seq<string>>)
      modifies this
      ensures systems == WithFlag(old(systems), id, false)
      ensures persisted == if Find(old(systems), id).None? then None else Some(UnlockedIds(systems))
    {
      var found := Find(systems, id);
      if found.None? {
        return None;
      }
      var k := found.value;
      systems := systems[k := systems[k].(unlocked := false)];
      persisted := Some(UnlockedIds(systems));
    }

    /** The start-up merge; `stored` is None when nothing (or nothing readable) was stored. */
    method MergeStored(stored: Option<seq<string>>)
      modifies this
      ensures systems == if stored.None? then old(systems) else Merged(old(systems), stored.value)
    {
      if stored.None? {
        return;
      }
      var storedIds := stored.value;
      var i := 0;
      while i < |systems|
        invariant 0 <= i <= |systems| == |old(systems)|
        invariant forall k :: 0 <= k < i ==> systems[k] == MergeOne(old(systems)[k], storedIds)
        invariant forall k :: i <= k < |systems| ==> systems[k] == old(systems)[k]
      {
        systems := systems[i := systems[i].(unlocked := systems[i].id in storedIds || systems[i].unlocked)];
        i := i + 1;
      }
    }
  }
}
