// Translation of lifecycle rules, what they apply to, and reading them back
// (internal/rgw/lifecycleconfig_helpers.go).

module LifecycleRules {
  import opened Wrappers
  import opened Sorting

  // --- the two vocabularies: the Bucket CR's and the S3 SDK's ---------------

  datatype Tag = Tag(key: string, value: string)

  datatype SpecAnd = SpecAnd(
    prefix: Option<string>, tags: Option<seq<Tag>>, sizeAbove: Option<int>, sizeBelow: Option<int>)

  datatype SpecFilter = SpecFilter(
    prefix: Option<string>, tag: Option<Tag>, and: Option<SpecAnd>, sizeAbove: Option<int>, sizeBelow: Option<int>)

  datatype Expiration = Expiration(date: Option<int>, days: Option<int>, expiredObjectDeleteMarker: Option<bool>)
  datatype NoncurrentExpiration = NoncurrentExpiration(noncurrentDays: Option<int>, newerVersions: Option<int>)
  datatype NoncurrentTransition = NoncurrentTransition(
    noncurrentDays: Option<int>, newerVersions: Option<int>, storageClass: string)
  datatype Transition = Transition(date: Option<int>, days: Option<int>, storageClass: string)

  /** A rule of the Bucket CR; a nil slice or pointer is None. */
  datatype SpecRule = SpecRule(
    id: Option<string>,
    status: string,
    abortDays: Option<Option<int>>,
    expiration: Option<Expiration>,
    noncurrentExpiration: Option<NoncurrentExpiration>,
    noncurrentTransitions: Option<seq<NoncurrentTransition>>,
    transitions: Option<seq<Transition>>,
    prefix: Option<string>,
    filter: Option<SpecFilter>)

  datatype S3Filter =
    | ByPrefix(prefix: string)
    | ByTag(tag: Tag)
    | ByAnd(andPrefix: Option<string>, tags: Option<seq<Tag>>)

  datatype S3Rule = S3Rule(
    id: Option<string>,
    status: string,
    abortDays: Option<int>,
    expiration: Option<Expiration>,
    noncurrentExpiration: Option<NoncurrentExpiration>,
    noncurrentTransitions: Option<seq<NoncurrentTransition>>,
    transitions: Option<seq<Transition>>,
    prefix: Option<string>,
    filter: Option<S3Filter>)

  // --- the order of tags ------------------------------------------------------

  function TagKey(t: Tag): string { t.key }

  /** sortS3TagSet: by key only, whatever the values. */
  function SortTags(tags: seq<Tag>): seq<Tag> { Sort(TagKey, tags) }

  /** Tags with the same key are the same tag (in particular: distinct keys). */
  predicate KeysTell(tags: seq<Tag>) { KeyDetermines(TagKey, tags) }

  // --- generating the SDK's rules -------------------------------------------

  function GenerateFilter(local: SpecRule): Option<S3Filter> {
    // S3 expects an empty filter, never nil, unless the legacy prefix is set.
    var default := if local.prefix.Some? then None else Some(ByPrefix(""));
    if local.filter.None? then default
    else
      var f := local.filter.value;
      if f.and.Some? then
        Some(ByAnd(f.and.value.prefix, if f.and.value.tags.Some? then Some(SortTags(f.and.value.tags.value)) else None))
      else if f.tag.Some? then Some(ByTag(f.tag.value))
      else if f.prefix.Some? then Some(ByPrefix(f.prefix.value))
      else default
  }

  function GenerateRule(local: SpecRule): S3Rule {
    S3Rule(local.id, local.status,
           if local.abortDays.Some? then local.abortDays.value else None,
           local.expiration,
           if local.noncurrentExpiration.Some? && local.noncurrentExpiration.value.noncurrentDays.Some?
           then Some(NoncurrentExpiration(local.noncurrentExpiration.value.noncurrentDays, None)) else None,
           local.noncurrentTransitions,
           local.transitions,
           local.prefix,
           GenerateFilter(local))
  }

  /** The generated list; the empty sequence is the SDK's nil slice. */
  function Generated(local: seq<SpecRule>): seq<S3Rule> {
    seq(|local|, i requires 0 <= i < |local| => GenerateRule(local[i]))
  }

  /** The loop over the rules. */
  method GenerateLifecycleRules(local: seq<SpecRule>) returns (result: seq<S3Rule>)
    ensures result == Generated(local)
  {
    result := [];
    for i := 0 to |local|
      invariant result == Generated(local[..i])
    {
      var rule := FillActions(local[i]);
      rule := FillFilter(local[i], rule);
      assert local[..i + 1] == local[..i] + [local[i]];
      result := result + [rule];
    }
    assert local[..|local|] == local;
  }

  /** One iteration's first half: a fresh rule, then its fields one by one. */
  method FillActions(l: SpecRule) returns (rule: S3Rule)
    ensures rule == GenerateRule(l).(prefix := None, filter := None)
  {
    rule := S3Rule(l.id, l.status, None, None, None, None, None, None, None);
    if l.abortDays.Some? && l.abortDays.value.Some? {
      rule := rule.(abortDays := l.abortDays.value);
    }
    if l.expiration.Some? {
      var e := Expiration(None, None, None);
      if l.expiration.value.expiredObjectDeleteMarker.Some? {
        e := e.(expiredObjectDeleteMarker := l.expiration.value.expiredObjectDeleteMarker);
      }
      if l.expiration.value.days.Some? { e := e.(days := l.expiration.value.days); }
      if l.expiration.value.date.Some? { e := e.(date := l.expiration.value.date); }
      rule := rule.(expiration := Some(e));
    }
    if l.noncurrentExpiration.Some? && l.noncurrentExpiration.value.noncurrentDays.Some? {
      var days := l.noncurrentExpiration.value.noncurrentDays;
      rule := rule.(noncurrentExpiration := Some(NoncurrentExpiration(days, None)));
    }
    if l.noncurrentTransitions.Some? {
      rule := rule.(noncurrentTransitions := Some(l.noncurrentTransitions.value));
    }
    if l.transitions.Some? {
      rule := rule.(transitions := Some(l.transitions.value));
    }
  }

  /** Its second half: each kind of filter overwrites the one before. */
  method FillFilter(l: SpecRule, start: S3Rule) returns (rule: S3Rule)
    requires start.prefix.None? && start.filter.None?
    ensures rule == start.(prefix := l.prefix, filter := GenerateFilter(l))
  {
    rule := start;
    if l.prefix.Some? {
      rule := rule.(prefix := l.prefix);
    } else {
      rule := rule.(filter := Some(ByPrefix("")));
    }
    if l.filter.Some? {
      var f := l.filter.value;
      if f.prefix.Some? { rule := rule.(filter := Some(ByPrefix(f.prefix.value))); }
      if f.tag.Some? { rule := rule.(filter := Some(ByTag(f.tag.value))); }
      if f.and.Some? {
        var tags: Option<seq<Tag>> := None;
        if f.and.value.tags.Some? { tags := Some(SortTags(f.and.value.tags.value)); }
        rule := rule.(filter := Some(ByAnd(f.and.value.prefix, tags)));
      }
    }
  }

  // --- what a rule applies to -------------------------------------------------

  datatype Object = Object(key: string, tags: map<string, string>, size: nat)

  predicate HasPrefix(o: Object, prefix: Option<string>) { prefix.Some? ==> prefix.value <= o.key }
  predicate HasTag(o: Object, t: Tag) { t.key in o.tags && o.tags[t.key] == t.value }
  predicate HasTags(o: Object, tags: Option<seq<Tag>>) { tags.Some? ==> forall t :: t in tags.value ==> HasTag(o, t) }
  predicate InSize(o: Object, above: Option<int>, below: Option<int>) {
    (above.Some? ==> o.size > above.value) && (below.Some? ==> o.size < below.value)
  }

  /** What the Bucket CR says the rule applies to: all constraints at once. */
  predicate SpecApplies(r: SpecRule, o: Object) {
    && HasPrefix(o, r.prefix)
    && (r.filter.Some? ==>
          var f := r.filter.value;
          && HasPrefix(o, f.prefix)
          && (f.tag.Some? ==> HasTag(o, f.tag.value))
          && InSize(o, f.sizeAbove, f.sizeBelow)
          && (f.and.Some? ==>
                && HasPrefix(o, f.and.value.prefix)
                && HasTags(o, f.and.value.tags)
                && InSize(o, f.and.value.sizeAbove, f.and.value.sizeBelow)))
  }

  /** What S3 applies the generated rule to. */
  predicate S3Applies(r: S3Rule, o: Object) {
    && HasPrefix(o, r.prefix)
    && (r.filter.Some? ==>
          match r.filter.value
          case ByPrefix(p) => HasPrefix(o, Some(p))
          case ByTag(t) => HasTag(o, t)
          case ByAnd(p, tags) => HasPrefix(o, p) && HasTags(o, tags))
  }

  /** The constraints of the spec filter that the generated one does not carry:
      And overrides Tag and Prefix, Tag overrides Prefix, sizes are dropped. */
  predicate LostConstraintsHold(r: SpecRule, o: Object) {
    r.filter.Some? ==>
      var f := r.filter.value;
      && InSize(o, f.sizeAbove, f.sizeBelow)
      && (f.and.Some? ==> InSize(o, f.and.value.sizeAbove, f.and.value.sizeBelow))
      && (f.and.Some? && f.tag.Some? ==> HasTag(o, f.tag.value))
      && (f.and.Some? || f.tag.Some? ==> HasPrefix(o, f.prefix))
  }

  lemma SortedTagsSame(tags: seq<Tag>, o: Object)
    ensures HasTags(o, Some(SortTags(tags))) <==> HasTags(o, Some(tags))
  {
    assert forall t :: t in SortTags(tags) <==> t in multiset(SortTags(tags));
    assert forall t :: t in tags <==> t in multiset(tags);
  }

  /** For every rule and object: the spec applies exactly when the generated
      rule applies and the lost constraints hold.  So the generated rule never
      misses an object the spec names. */
  lemma GeneratedMeaning(r: SpecRule, o: Object)
    ensures SpecApplies(r, o) <==> S3Applies(GenerateRule(r), o) && LostConstraintsHold(r, o)
  {
    if r.filter.Some? && r.filter.value.and.Some? && r.filter.value.and.value.tags.Some? {
      SortedTagsSame(r.filter.value.and.value.tags.value, o);
    }
  }

  // --- what a rule does ---------------------------------------------------------

  /** What a rule may act on: an unfinished upload, the current version, a delete
      marker with nothing behind it, a noncurrent version with so many newer
      noncurrent ones.  Ages are in days, `now` is a date. */
  datatype Subject =
    | Upload(age: nat)
    | CurrentVersion(days: nat, now: int)
    | LoneMarker
    | NoncurrentVersion(noncurrentDays: nat, newer: nat)

  datatype Deed = Abort | Expire | RemoveMarker | MoveTo(storageClass: string)

  predicate Reached(limit: Option<int>, value: int) { limit.Some? && value >= limit.value }

  predicate Active(status: string) { status == "Enabled" }

  /** What the Bucket CR asks for.  A noncurrent expiration needs its number of
      days, and where it limits the newer versions, it spares those within. */
  predicate SpecDoes(r: SpecRule, o: Object, u: Subject, d: Deed) {
    Active(r.status) && SpecApplies(r, o) &&
    match d
    case Abort => u.Upload? && r.abortDays.Some? && Reached(r.abortDays.value, u.age)
    case RemoveMarker =>
      u.LoneMarker? && r.expiration.Some? && r.expiration.value.expiredObjectDeleteMarker == Some(true)
    case Expire =>
      (u.CurrentVersion? && r.expiration.Some?
        && (Reached(r.expiration.value.days, u.days) || Reached(r.expiration.value.date, u.now)))
      || (u.NoncurrentVersion? && r.noncurrentExpiration.Some?
        && Reached(r.noncurrentExpiration.value.noncurrentDays, u.noncurrentDays)
        && (r.noncurrentExpiration.value.newerVersions.Some? ==>
              Reached(r.noncurrentExpiration.value.newerVersions, u.newer)))
    case MoveTo(target) =>
      (u.CurrentVersion? && r.transitions.Some?
        && exists t :: t in r.transitions.value && t.storageClass == target
                       && (Reached(t.days, u.days) || Reached(t.date, u.now)))
      || (u.NoncurrentVersion? && r.noncurrentTransitions.Some?
        && exists t :: t in r.noncurrentTransitions.value && t.storageClass == target
                       && Reached(t.noncurrentDays, u.noncurrentDays)
                       && (t.newerVersions.Some? ==> Reached(t.newerVersions, u.newer)))
  }

  /** What S3 does under a rule it was sent. */
  predicate S3Does(r: S3Rule, o: Object, u: Subject, d: Deed) {
    Active(r.status) && S3Applies(r, o) &&
    match u
    case Upload(age) => d.Abort? && Reached(r.abortDays, age)
    case LoneMarker => d.RemoveMarker? && r.expiration.Some?
        && r.expiration.value.expiredObjectDeleteMarker == Some(true)
    case CurrentVersion(days, now) =>
      (d.Expire? && r.expiration.Some?
          && (Reached(r.expiration.value.days, days) || Reached(r.expiration.value.date, now)))
      || (d.MoveTo? && r.transitions.Some?
        && exists i :: 0 <= i < |r.transitions.value| && r.transitions.value[i].storageClass == d.storageClass
             && (Reached(r.transitions.value[i].days, days) || Reached(r.transitions.value[i].date, now)))
    case NoncurrentVersion(days, newer) =>
      (d.Expire? && r.noncurrentExpiration.Some? && Reached(r.noncurrentExpiration.value.noncurrentDays, days)
        && (r.noncurrentExpiration.value.newerVersions.Some? ==>
             Reached(r.noncurrentExpiration.value.newerVersions, newer)))
      || (d.MoveTo? && r.noncurrentTransitions.Some?
        && exists i :: 0 <= i < |r.noncurrentTransitions.value|
             && r.noncurrentTransitions.value[i].storageClass == d.storageClass
             && Reached(r.noncurrentTransitions.value[i].noncurrentDays, days)
             && (r.noncurrentTransitions.value[i].newerVersions.Some? ==>
                   Reached(r.noncurrentTransitions.value[i].newerVersions, newer)))
  }

  /** The limit of newer versions spares this version from expiring. */
  predicate SparedByLimit(r: SpecRule, u: Subject, d: Deed) {
    && u.NoncurrentVersion? && d.Expire? && r.noncurrentExpiration.Some?
    && r.noncurrentExpiration.value.newerVersions.Some?
    && u.newer < r.noncurrentExpiration.value.newerVersions.value
  }

  /** For every rule, object, subject and deed: the spec asks for it exactly when
      the generated rule does it, the lost filter constraints hold and the lost
      limit does not spare the version.  So a rule that is not enabled does
      nothing, and nothing the spec asks for is left undone. */
  lemma GeneratedEffect(r: SpecRule, o: Object, u: Subject, d: Deed)
    ensures SpecDoes(r, o, u, d) <==>
            S3Does(GenerateRule(r), o, u, d) && LostConstraintsHold(r, o) && !SparedByLimit(r, u, d)
  {
    GeneratedMeaning(r, o);
    if d.MoveTo? && u.CurrentVersion? && r.transitions.Some? {
      var ts := r.transitions.value;
      assert forall t :: t in ts <==> exists i :: 0 <= i < |ts| && ts[i] == t;
    }
    if d.MoveTo? && u.NoncurrentVersion? && r.noncurrentTransitions.Some? {
      var ts := r.noncurrentTransitions.value;
      assert forall t :: t in ts <==> exists i :: 0 <= i < |ts| && ts[i] == t;
    }
  }

  predicate SpecConfigDoes(rules: seq<SpecRule>, o: Object, u: Subject, d: Deed) {
    exists i :: 0 <= i < |rules| && SpecDoes(rules[i], o, u, d)
  }

  predicate S3ConfigDoes(rules: seq<S3Rule>, o: Object, u: Subject, d: Deed) {
    exists i :: 0 <= i < |rules| && S3Does(rules[i], o, u, d)
  }

  /** What no rule of the spec says is lost on the way. */
  predicate NothingLost(r: SpecRule) {
    && r.prefix.None? && (r.filter.Some? ==> AtMostOne(r.filter.value) && !SizeBounded(r.filter.value))
    && (r.noncurrentExpiration.Some? ==> r.noncurrentExpiration.value.newerVersions.None?)
  }

  /** A whole configuration whose rules lose nothing does on S3 exactly what the
      Bucket CR asks for; any other does at least that. */
  lemma GeneratedConfigEffect(local: seq<SpecRule>, o: Object, u: Subject, d: Deed)
    ensures SpecConfigDoes(local, o, u, d) ==> S3ConfigDoes(Generated(local), o, u, d)
    ensures (forall r :: r in local ==> NothingLost(r)) ==>
              (SpecConfigDoes(local, o, u, d) <==> S3ConfigDoes(Generated(local), o, u, d))
    ensures |Generated(local)| == |local| && forall i :: 0 <= i < |local| ==> Generated(local)[i].id == local[i].id
  {
    forall i | 0 <= i < |local|
      ensures SpecDoes(local[i], o, u, d) ==> S3Does(Generated(local)[i], o, u, d)
      ensures NothingLost(local[i]) ==> (SpecDoes(local[i], o, u, d) <==> S3Does(Generated(local)[i], o, u, d))
    {
      GeneratedEffect(local[i], o, u, d);
    }
  }

  /** The generated noncurrent expiration is the spec's exactly when that has no
      limit of newer versions and, if it is there at all, a number of days; one
      without days is dropped whole, and a limit never gets through. */
  lemma NoncurrentExpirationKept(r: SpecRule)
    ensures GenerateRule(r).noncurrentExpiration == r.noncurrentExpiration <==>
            (r.noncurrentExpiration.Some? ==>
               r.noncurrentExpiration.value.noncurrentDays.Some? && r.noncurrentExpiration.value.newerVersions.None?)
    ensures GenerateRule(r).noncurrentExpiration.None? <==>
            (r.noncurrentExpiration.Some? ==> r.noncurrentExpiration.value.noncurrentDays.None?)
  {
  }

  /** Two rules that differ in the limit alone are sent alike. */
  lemma LimitInvisible(r: SpecRule, limit: Option<int>)
    requires r.noncurrentExpiration.Some?
    ensures GenerateRule(r.(noncurrentExpiration := Some(r.noncurrentExpiration.value.(newerVersions := limit)))) ==
            GenerateRule(r)
  {
  }

  predicate AtMostOne(f: SpecFilter) {
    && !(f.prefix.Some? && f.tag.Some?) && !(f.prefix.Some? && f.and.Some?) && !(f.tag.Some? && f.and.Some?)
  }

  /** A size bound some object size violates. */
  predicate Bounded(above: Option<int>, below: Option<int>) { (above.Some? && above.value >= 0) || below.Some? }

  predicate SizeBounded(f: SpecFilter) {
    Bounded(f.sizeAbove, f.sizeBelow) || (f.and.Some? && Bounded(f.and.value.sizeAbove, f.and.value.sizeBelow))
  }

  ghost predicate SameObjects(r: SpecRule) {
    forall o :: SpecApplies(r, o) <==> S3Applies(GenerateRule(r), o)
  }

  /** And tags that give one key two values: no object matches them. */
  predicate ContradictoryTags(f: SpecFilter) {
    f.and.Some? && f.and.value.tags.Some? && !KeysTell(f.and.value.tags.value)
  }

  /** For a rule with no legacy prefix and at most one of Prefix, Tag and And, as
      the API asks for, the generated rule applies to the same objects exactly
      when the filter has no size bound (or can match nothing anyway). */
  lemma MeaningPreservedUnlessSized(r: SpecRule)
    requires r.prefix.None? && (r.filter.Some? ==> AtMostOne(r.filter.value))
    ensures SameObjects(r) <==> (r.filter.Some? && SizeBounded(r.filter.value) ==> ContradictoryTags(r.filter.value))
  {
    if r.filter.None? || !SizeBounded(r.filter.value) {
      forall o ensures SpecApplies(r, o) <==> S3Applies(GenerateRule(r), o) {
        GeneratedMeaning(r, o);
      }
    } else {
      SizedMeaning(r);
    }
  }

  lemma SizedMeaning(r: SpecRule)
    requires r.prefix.None? && r.filter.Some? && AtMostOne(r.filter.value) && SizeBounded(r.filter.value)
    ensures SameObjects(r) <==> ContradictoryTags(r.filter.value)
  {
    var f := r.filter.value;
    if ContradictoryTags(f) {
      forall o ensures SpecApplies(r, o) <==> S3Applies(GenerateRule(r), o) {
        SortedTagsSame(f.and.value.tags.value, o);
        MatchesNothing(f.and.value.tags.value, o);
      }
    } else {
      var o := OutOfBounds(f);
      if f.and.Some? && f.and.value.tags.Some? { SortedTagsSame(f.and.value.tags.value, o); }
      assert S3Applies(GenerateRule(r), o) && !SpecApplies(r, o);
    }
  }

  lemma MatchesNothing(tags: seq<Tag>, o: Object)
    requires !KeysTell(tags)
    ensures !HasTags(o, Some(tags))
  {
    var i, j :| 0 <= i < |tags| && 0 <= j < |tags| && TagKey(tags[i]) == TagKey(tags[j]) && tags[i] != tags[j];
    assert tags[i] in tags && tags[j] in tags;
    assert tags[i].key == tags[j].key;
  }

  /** An object that meets every constraint of the filter except a size bound. */
  lemma OutOfBounds(f: SpecFilter) returns (o: Object)
    requires SizeBounded(f) && AtMostOne(f)
    requires f.and.Some? && f.and.value.tags.Some? ==> KeysTell(f.and.value.tags.value)
    ensures HasPrefix(o, f.prefix) && (f.tag.Some? ==> HasTag(o, f.tag.value))
    ensures f.and.Some? ==> HasPrefix(o, f.and.value.prefix) && HasTags(o, f.and.value.tags)
    ensures !(InSize(o, f.sizeAbove, f.sizeBelow)
            && (f.and.Some? ==> InSize(o, f.and.value.sizeAbove, f.and.value.sizeBelow)))
  {
    var a := if Bounded(f.sizeAbove, f.sizeBelow) then (f.sizeAbove, f.sizeBelow)
             else (f.and.value.sizeAbove, f.and.value.sizeBelow);
    var size: nat := if a.1.Some? && a.1.value >= 0 then a.1.value else 0;
    var key := if f.prefix.Some? then f.prefix.value
               else if f.and.Some? && f.and.value.prefix.Some? then f.and.value.prefix.value else "";
    var wanted := if f.tag.Some? then [f.tag.value]
                  else if f.and.Some? && f.and.value.tags.Some? then f.and.value.tags.value else [];
    o := Object(key, TagMap(wanted), size);
    forall t | t in wanted ensures HasTag(o, t) { TagMapHas(wanted, t); }
  }

  function TagMap(tags: seq<Tag>): map<string, string> {
    if tags == [] then map[] else TagMap(tags[1..])[tags[0].key := tags[0].value]
  }

  lemma {:induction false} TagMapHas(tags: seq<Tag>, t: Tag)
    requires KeysTell(tags) && t in tags
    ensures t.key in TagMap(tags) && TagMap(tags)[t.key] == t.value
  {
    if t.key != tags[0].key {
      assert t in tags[1..];
      TagMapHas(tags[1..], t);
    }
  }

  // --- reading back what was put -----------------------------------------------

  /** SortFilterTags on one rule: And tags are sorted, and nil tags become empty ones. */
  function SortFilter(r: S3Rule): S3Rule {
    if r.filter.Some? && r.filter.value.ByAnd? then
      var tags := if r.filter.value.tags.Some? then r.filter.value.tags.value else [];
      r.(filter := Some(ByAnd(r.filter.value.andPrefix, Some(SortTags(tags)))))
    else r
  }

  function SortedFilters(rules: seq<S3Rule>): seq<S3Rule> {
    seq(|rules|, i requires 0 <= i < |rules| => SortFilter(rules[i]))
  }

  method SortFilterTags(rules: array<S3Rule>)
    modifies rules
    ensures rules[..] == SortedFilters(old(rules[..]))
  {
    for i := 0 to rules.Length
      invariant forall j :: 0 <= j < i ==> rules[j] == SortFilter(old(rules[j]))
      invariant forall j :: i <= j < rules.Length ==> rules[j] == old(rules[j])
    {
      var filter := rules[i].filter;
      if filter.Some? && filter.value.ByAnd? {
        var tags := if filter.value.tags.Some? then filter.value.tags.value else [];
        rules[i] := rules[i].(filter := Some(ByAnd(filter.value.andPrefix, Some(SortTags(tags)))));
      }
    }
  }

  /** The same rule with the tags of an And filter in some other order. */
  predicate SameUpToTagOrder(a: S3Rule, b: S3Rule) {
    a == b ||
    (&& a.filter.Some? && b.filter.Some? && a.filter.value.ByAnd? && b.filter.value.ByAnd?
     && a.(filter := None) == b.(filter := None)
     && a.filter.value.andPrefix == b.filter.value.andPrefix
     && a.filter.value.tags.Some? && b.filter.value.tags.Some?
     && multiset(a.filter.value.tags.value) == multiset(b.filter.value.tags.value))
  }

  /** A backend that returns what was put, And tags in any order. */
  predicate ReturnsPut(put: seq<S3Rule>, got: seq<S3Rule>) {
    |put| == |got| && forall i :: 0 <= i < |put| ==> SameUpToTagOrder(put[i], got[i])
  }

  /** However the backend orders the tags, what is read back compares equal. */
  ghost predicate AlwaysReadsBack(local: seq<SpecRule>) {
    forall got :: ReturnsPut(Generated(local), got) ==> SortedFilters(got) == Generated(local)
  }

  /** Every And filter has a tag list, and its tags are told apart by key. */
  predicate Canonical(local: seq<SpecRule>) {
    forall i :: 0 <= i < |local| ==> CanonicalRule(local[i])
  }

  predicate CanonicalRule(r: SpecRule) {
    r.filter.Some? && r.filter.value.and.Some? ==>
      r.filter.value.and.value.tags.Some? && KeysTell(r.filter.value.and.value.tags.value)
  }

  /** Exactly for the canonical lists, whatever order the backend returns tags
      in, observeBackend finds its rules equal to the desired ones. */
  lemma ReadBackExact(local: seq<SpecRule>)
    ensures AlwaysReadsBack(local) <==> Canonical(local)
  {
    if Canonical(local) {
      forall got | ReturnsPut(Generated(local), got) ensures SortedFilters(got) == Generated(local) {
        CanonicalReadsBack(local, got);
      }
    } else {
      var i :| 0 <= i < |local| && !CanonicalRule(local[i]);
      var rule := BadReorder(local[i]);
      var put := Generated(local);
      var got := put[i := rule];
      assert put[i] == GenerateRule(local[i]);
      assert ReturnsPut(put, got);
      assert SortedFilters(got)[i] == SortFilter(rule);
    }
  }

  lemma CanonicalReadsBack(local: seq<SpecRule>, got: seq<S3Rule>)
    requires Canonical(local) && ReturnsPut(Generated(local), got)
    ensures SortedFilters(got) == Generated(local)
  {
    forall i | 0 <= i < |got| ensures SortFilter(got[i]) == Generated(local)[i] {
      assert CanonicalRule(local[i]);
      RuleReadsBack(local[i], got[i]);
    }
  }

  lemma RuleReadsBack(r: SpecRule, got: S3Rule)
    requires CanonicalRule(r) && SameUpToTagOrder(GenerateRule(r), got)
    ensures SortFilter(got) == GenerateRule(r)
  {
    var put := GenerateRule(r);
    if put.filter.Some? && put.filter.value.ByAnd? {
      var tags := r.filter.value.and.value.tags.value;
      var gotTags := got.filter.value.tags.value;
      assert multiset(gotTags) == multiset(SortTags(tags)) == multiset(tags);
      ReorderingsSortAlike(TagKey, tags, gotTags);
    }
  }

  lemma BadReorder(r: SpecRule) returns (got: S3Rule)
    requires !CanonicalRule(r)
    ensures SameUpToTagOrder(GenerateRule(r), got) && SortFilter(got) != GenerateRule(r)
  {
    var put := GenerateRule(r);
    got := put;
    if r.filter.value.and.value.tags.Some? {
      var tags := r.filter.value.and.value.tags.value;
      var p, q := DifferentlySorted(TagKey, tags);
      var other := if SortTags(p) != SortTags(tags) then p else q;
      assert multiset(other) == multiset(SortTags(tags));
      got := put.(filter := Some(ByAnd(put.filter.value.andPrefix, Some(other))));
    }
  }

  /** A generated rule is already in sorted form, but for a nil tag list. */
  lemma SortFilterGenerated(r: SpecRule)
    ensures SortFilter(GenerateRule(r)) == GenerateRule(r) <==>
            (r.filter.Some? && r.filter.value.and.Some? ==> r.filter.value.and.value.tags.Some?)
  {
    if r.filter.Some? && r.filter.value.and.Some? && r.filter.value.and.value.tags.Some? {
      SortCanonical(TagKey, r.filter.value.and.value.tags.value);
    }
  }

  lemma SortFilterIdempotent(r: S3Rule)
    ensures SortFilter(SortFilter(r)) == SortFilter(r)
  {
    if r.filter.Some? && r.filter.value.ByAnd? {
      SortCanonical(TagKey, if r.filter.value.tags.Some? then r.filter.value.tags.value else []);
    }
  }
}
