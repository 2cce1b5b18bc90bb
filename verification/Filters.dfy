/**
 Which sensors a query selects: the Go predicate of the memory store and the WHERE clause of the
 Postgres store, and for which filters the two select the same sensors.
 */
module Filters {
  import opened Wrappers
  import opened Strings
  import opened Sensors

  datatype QueryFilter = QueryFilter(
    id: string,
    namespace: string,
    name: string,
    search: string,
    labels: map<string, string>,
    hasLabelKeys: seq<string>,
    orderBy: string,
    orderDesc: bool,
    limit: int)

  const EMPTY_FILTER := QueryFilter("", "", "", "", map[], [], "", false, 0)

  // ---- memory_storage.go ---------------------------------------------------------------

  predicate IdentityMatches(info: SensorInfo, filter: QueryFilter) {
    && (filter.id == "" || info.id == filter.id)
    && (filter.name == "" || info.name == filter.name)
    && (filter.namespace == "" || info.namespace == filter.namespace)
  }

  predicate SearchMatches(info: SensorInfo, search: string) {
    search == ""
    || Contains(ToLower(info.name), ToLower(search))
    || Contains(ToLower(info.description), ToLower(search))
  }

  /** Indexing a Go map: an absent key reads as "". */
  function Lookup(m: map<string, string>, key: string): string {
    if key in m then m[key] else ""
  }

  predicate LabelsMatch(labels: Labels, wanted: map<string, string>) {
    wanted == map[] || (labels.Some? && forall k | k in wanted :: Lookup(labels.value, k) == wanted[k])
  }

  predicate KeysMatch(labels: Labels, keys: seq<string>) {
    keys == [] || (labels.Some? && forall k | k in keys :: k in labels.value)
  }

  predicate Matches(info: SensorInfo, filter: QueryFilter) {
    && IdentityMatches(info, filter)
    && SearchMatches(info, filter.search)
    && LabelsMatch(info.labels, filter.labels)
    && KeysMatch(info.labels, filter.hasLabelKeys)
  }

  /** The search text stands in the text, letter by letter and whatever their cases. */
  predicate ReadsIn(text: string, search: string) {
    exists i: nat | i <= |text| :: ReadsAt(text, search, i)
  }

  /** What selecting means, condition by condition; a label that a sensor lacks counts as empty. */
  lemma MatchesIff(info: SensorInfo, filter: QueryFilter)
    ensures Matches(info, filter) <==>
            && filter.id in {"", info.id} && filter.name in {"", info.name} && filter.namespace in {"", info.namespace}
            && (filter.search == "" || ReadsIn(info.name, filter.search) || ReadsIn(info.description, filter.search))
            && (forall k | k in filter.labels ::
                  && info.labels.Some?
                  && filter.labels[k] == if k in info.labels.value then info.labels.value[k] else "")
            && (forall k | k in filter.hasLabelKeys :: info.labels.Some? && k in info.labels.value)
  {
    hide Contains;
    ContainsIgnoresCase(info.name, filter.search);
    ContainsIgnoresCase(info.description, filter.search);
    if filter.labels != map[] {
      var k :| k in filter.labels;
    }
    if filter.hasLabelKeys != [] {
      assert filter.hasLabelKeys[0] in filter.hasLabelKeys;
    }
  }

  // ---- postgresql_storage.go -----------------------------------------------------------

  /** SQL LIKE with the default escape character. */
  predicate Like(s: string, p: string)
    decreases |s| + |p|
  {
    if p == "" then s == ""
    else if p[0] == '%' then Like(s, p[1..]) || (s != "" && Like(s[1..], p))
    else if p[0] == '_' then s != "" && Like(s[1..], p[1..])
    else if p[0] == '\\' then |p| >= 2 && s != "" && s[0] == p[1] && Like(s[1..], p[2..])
    else s != "" && s[0] == p[0] && Like(s[1..], p[1..])
  }

  predicate ILike(s: string, p: string) {
    Like(ToLower(s), ToLower(p))
  }

  predicate SqlSearchMatches(info: SensorInfo, search: string) {
    search == ""
    || ILike(info.name, "%" + search + "%")
    || ILike(info.description, "%" + search + "%")
  }

  /** labels @> wanted, on a JSON object or a JSON null. */
  predicate JsonbContains(labels: Labels, wanted: map<string, string>) {
    labels.Some? && forall k | k in wanted :: k in labels.value && labels.value[k] == wanted[k]
  }

  /** jsonb_exists_all(labels, keys). */
  predicate JsonbExistsAll(labels: Labels, keys: seq<string>) {
    labels.Some? && forall k | k in keys :: k in labels.value
  }

  predicate SqlMatches(info: SensorInfo, filter: QueryFilter) {
    && IdentityMatches(info, filter)
    && SqlSearchMatches(info, filter.search)
    && (|filter.labels| > 0 ==> JsonbContains(info.labels, filter.labels))
    && (|filter.hasLabelKeys| > 0 ==> JsonbExistsAll(info.labels, filter.hasLabelKeys))
  }

  // ---- LIKE '%text%' is containment ------------------------------------------------------

  predicate IsWildcard(c: char) {
    c == '%' || c == '_' || c == '\\'
  }

  /** Text that LIKE takes literally. */
  predicate IsPlain(s: string) {
    forall i :: 0 <= i < |s| ==> !IsWildcard(s[i])
  }

  lemma {:induction false} LikeAnything(s: string)
    ensures Like(s, "%")
    decreases |s|
  {
    assert "%"[1..] == "";
    if s != "" {
      LikeAnything(s[1..]);
    }
  }

  lemma {:induction false} LikePrefix(s: string, text: string)
    requires IsPlain(text)
    ensures Like(s, text + "%") <==> HasPrefix(s, text)
    decreases |text|
  {
    var p := text + "%";
    if text == "" {
      assert p == "%";
      LikeAnything(s);
    } else {
      assert p[0] == text[0] && !IsWildcard(text[0]) && p[1..] == text[1..] + "%";
      if s != "" {
        LikePrefix(s[1..], text[1..]);
        assert HasPrefix(s, text) <==> s[0] == text[0] && HasPrefix(s[1..], text[1..]) by {
          if HasPrefix(s, text) {
            assert s[1..][..|text| - 1] == s[..|text|][1..];
          }
          if s[0] == text[0] && HasPrefix(s[1..], text[1..]) {
            assert s[..|text|] == [s[0]] + s[1..][..|text| - 1];
          }
        }
      }
    }
  }

  predicate LikeFrom(s: string, p: string, i: int) {
    0 <= i <= |s| && Like(s[i..], p)
  }

  /** A leading % lets the rest of the pattern match anywhere in the text. */
  lemma {:induction false} LikeFloats(s: string, p: string)
    ensures Like(s, "%" + p) <==> exists i | 0 <= i <= |s| :: LikeFrom(s, p, i)
    decreases |s|
  {
    var q := "%" + p;
    assert q[1..] == p && s[0..] == s;
    assert Like(s, p) <==> LikeFrom(s, p, 0);
    if s != "" {
      LikeFloats(s[1..], p);
      forall i | 0 <= i < |s|
        ensures LikeFrom(s[1..], p, i) <==> LikeFrom(s, p, i + 1)
      {
        assert s[1..][i..] == s[i + 1..];
      }
      assert forall i | 1 <= i <= |s| :: LikeFrom(s, p, i) ==> LikeFrom(s[1..], p, i - 1);
    }
  }

  lemma LikeContains(s: string, text: string)
    requires IsPlain(text)
    ensures Like(s, "%" + text + "%") <==> Contains(s, text)
  {
    assert "%" + text + "%" == "%" + (text + "%");
    LikeFloats(s, text + "%");
    forall i | 0 <= i <= |s|
      ensures LikeFrom(s, text + "%", i) <==> OccursAt(s, text, i)
    {
      LikePrefix(s[i..], text);
      if i + |text| <= |s| {
        assert s[i..][..|text|] == s[i..i + |text|];
      }
    }
  }

  /** The characters that a pattern without a bare % asks for, one after another; any character for an underscore. */
  function Wanted(p: string): Option<seq<Option<char>>>
    decreases |p|
  {
    if p == "" then Some([])
    else if p[0] == '%' || p == "\\" then None
    else
      var rest :- Wanted(if p[0] == '\\' then p[2..] else p[1..]);
      Some([if p[0] == '_' then None else Some(if p[0] == '\\' then p[1] else p[0])] + rest)
  }

  /** Such a pattern matches exactly the texts of its length that have, one by one, the characters it asks for. */
  lemma {:induction false} LikeIsCharByChar(s: string, p: string)
    requires Wanted(p).Some?
    ensures var w := Wanted(p).value;
            Like(s, p) <==> |s| == |w| && forall i | 0 <= i < |s| :: w[i] == None || w[i] == Some(s[i])
    decreases |p|
  {
    if p != "" {
      var tail, w := if p[0] == '\\' then p[2..] else p[1..], Wanted(p).value;
      assert w[1..] == Wanted(tail).value;
      if s != "" {
        LikeIsCharByChar(s[1..], tail);
        assert forall i | 1 <= i < |s| :: s[i] == s[1..][i - 1];
        assert forall i | 1 <= i < |w| :: w[i] == w[1..][i - 1];
      }
    }
  }

  /** Plain text asks for its own characters. */
  lemma {:induction false} PlainAsksForItself(p: string)
    requires IsPlain(p)
    ensures Wanted(p).Some? && |Wanted(p).value| == |p| && forall i | 0 <= i < |p| :: Wanted(p).value[i] == Some(p[i])
    decreases |p|
  {
    if p != "" {
      assert !IsWildcard(p[0]);
      PlainAsksForItself(p[1..]);
    }
  }

  /** A text that matches `search%`: wildcards are dropped, replaced or unescaped. */
  function Sample(search: string): (s: string)
    ensures |s| <= |search|
    decreases |search|
  {
    if search == "" then ""
    else if search[0] == '%' then Sample(search[1..])
    else if search[0] == '_' then "a" + Sample(search[1..])
    else if search[0] == '\\' then
      if |search| == 1 then "%" else [search[1]] + Sample(search[2..])
    else [search[0]] + Sample(search[1..])
  }

  lemma {:induction false} SampleIsLike(search: string)
    ensures Like(Sample(search), search + "%")
    decreases |search|
  {
    var p, s := search + "%", Sample(search);
    if search == "" {
      assert p == "%";
      LikeAnything(s);
    } else if search == "\\" {
      assert p[2..] == "" && s[1..] == "";
    } else if search[0] == '\\' {
      SampleIsLike(search[2..]);
      assert p[2..] == search[2..] + "%" && s[1..] == Sample(search[2..]);
    } else {
      SampleIsLike(search[1..]);
      assert p[1..] == search[1..] + "%";
      if search[0] != '%' {
        assert s[1..] == Sample(search[1..]);
      }
    }
  }

  lemma {:induction false} SampleDiffers(search: string)
    requires !IsPlain(search)
    ensures Sample(search) != search
    decreases |search|
  {
    if !IsWildcard(search[0]) {
      assert !IsPlain(search[1..]) by {
        var i :| 0 <= i < |search| && IsWildcard(search[i]);
        assert search[1..][i - 1] == search[i];
      }
      SampleDiffers(search[1..]);
      assert Sample(search)[1..] == Sample(search[1..]);
    }
  }

  /** A text that LIKE finds in it although it is not there. */
  lemma SampleParts(search: string)
    requires !IsPlain(search)
    ensures Like(Sample(search), "%" + search + "%") && !Contains(Sample(search), search)
  {
    var s := Sample(search);
    SampleIsLike(search);
    LikeFloats(s, search + "%");
    assert s[0..] == s && LikeFrom(s, search + "%", 0);
    assert "%" + search + "%" == "%" + (search + "%");
    SampleDiffers(search);
    forall i | 0 <= i <= |s|
      ensures !OccursAt(s, search, i)
    {
      assert s[0..|s|] == s;
    }
  }

  /** LIKE '%search%' means containment of `search` exactly when `search` has no wildcard. */
  lemma LikeIsContainsIff(search: string)
    ensures (forall s :: Like(s, "%" + search + "%") <==> Contains(s, search)) <==> IsPlain(search)
  {
    if IsPlain(search) {
      forall s
        ensures Like(s, "%" + search + "%") <==> Contains(s, search)
      {
        LikeContains(s, search);
      }
    } else {
      SampleParts(search);
    }
  }

  // ---- the two stores select the same sensors --------------------------------------------

  /** Every label wanted empty is also required to be there. */
  predicate KeysCover(wanted: map<string, string>, keys: seq<string>) {
    forall k | k in wanted && wanted[k] == "" :: k in keys
  }

  /** Labels that have what is wanted and every key that is required. */
  function Fulfilling(wanted: map<string, string>, keys: seq<string>): map<string, string> {
    (map k | k in keys :: "") + wanted
  }

  /** The conditions on labels and keys together agree on every sensor exactly when the keys cover the empty values. */
  lemma LabelAndKeyConditionsAgreeIff(wanted: map<string, string>, keys: seq<string>)
    ensures (forall labels :: (LabelsMatch(labels, wanted) && KeysMatch(labels, keys)) <==>
                              ((|wanted| > 0 ==> JsonbContains(labels, wanted))
                               && (|keys| > 0 ==> JsonbExistsAll(labels, keys))))
            <==> KeysCover(wanted, keys)
  {
    assert wanted == map[] <==> |wanted| == 0;
    if !KeysCover(wanted, keys) {
      var k :| k in wanted && wanted[k] == "" && k !in keys;
      LacksOne(wanted, keys, k);
    }
  }

  /** Without the one label wanted empty, the memory store is content and the database is not. */
  lemma LacksOne(wanted: map<string, string>, keys: seq<string>, k: string)
    requires k in wanted && wanted[k] == "" && k !in keys
    ensures var labels := Some(Fulfilling(wanted, keys) - {k});
            LabelsMatch(labels, wanted) && KeysMatch(labels, keys) && |wanted| > 0 && !JsonbContains(labels, wanted)
  {
    assert k in wanted.Keys && |wanted.Keys| == |wanted|;
  }

  lemma LowerPlain(search: string)
    ensures IsPlain(ToLower(search)) <==> IsPlain(search)
  {
    var lower := ToLower(search);
    assert forall i | 0 <= i < |search| :: IsWildcard(search[i]) <==> IsWildcard(lower[i]);
  }

  /** The same for the SQL predicate, whose label condition wants the label to be there, for text without wildcards. */
  lemma SqlMatchesIff(info: SensorInfo, filter: QueryFilter)
    requires IsPlain(filter.search)
    ensures SqlMatches(info, filter) <==>
            && filter.id in {"", info.id} && filter.name in {"", info.name} && filter.namespace in {"", info.namespace}
            && (filter.search == "" || ReadsIn(info.name, filter.search) || ReadsIn(info.description, filter.search))
            && (forall k | k in filter.labels ::
                  info.labels.Some? && k in info.labels.value && info.labels.value[k] == filter.labels[k])
            && (forall k | k in filter.hasLabelKeys :: info.labels.Some? && k in info.labels.value)
  {
    hide Contains;
    SqlSearchIff(info, filter.search);
    if filter.labels != map[] {
      var k :| k in filter.labels;
      assert k in filter.labels.Keys && |filter.labels| == |filter.labels.Keys|;
    }
    if filter.hasLabelKeys != [] {
      assert filter.hasLabelKeys[0] in filter.hasLabelKeys;
    }
  }

  lemma SqlSearchIff(info: SensorInfo, search: string)
    requires IsPlain(search)
    ensures SqlSearchMatches(info, search) <==>
            search == "" || ReadsIn(info.name, search) || ReadsIn(info.description, search)
  {
    hide Contains, Like;
    var pattern := "%" + search + "%";
    assert ToLower(pattern) == "%" + ToLower(search) + "%";
    LowerPlain(search);
    LikeContains(ToLower(info.name), ToLower(search));
    LikeContains(ToLower(info.description), ToLower(search));
    ContainsIgnoresCase(info.name, search);
    ContainsIgnoresCase(info.description, search);
  }

  /** For filters without wildcards, and with keys for empty label values, both stores select the same sensors. */
  lemma StoresSelectTheSame(info: SensorInfo, filter: QueryFilter)
    requires IsPlain(filter.search) && KeysCover(filter.labels, filter.hasLabelKeys)
    ensures Matches(info, filter) <==> SqlMatches(info, filter)
  {
    var pattern := "%" + filter.search + "%";
    assert ToLower(pattern) == "%" + ToLower(filter.search) + "%";
    LowerPlain(filter.search);
    LikeContains(ToLower(info.name), ToLower(filter.search));
    LikeContains(ToLower(info.description), ToLower(filter.search));
    LabelAndKeyConditionsAgreeIff(filter.labels, filter.hasLabelKeys);
  }

  predicate IsLower(s: string) {
    forall i | 0 <= i < |s| :: LowerChar(s[i]) == s[i]
  }

  lemma {:induction false} SampleIsLower(search: string)
    requires IsLower(search)
    ensures IsLower(Sample(search))
    decreases |search|
  {
    if search != "" {
      if search[0] == '\\' {
        if |search| > 1 {
          assert IsLower(search[2..]);
          SampleIsLower(search[2..]);
        }
      } else {
        assert IsLower(search[1..]);
        SampleIsLower(search[1..]);
      }
    }
  }

  /** A sensor that every part of a filter without a name lets through, but for the search and one label left out. */
  function Probe(filter: QueryFilter, text: string, without: set<string>): SensorInfo {
    SensorInfo(filter.id, filter.namespace, text, "", text, 0, 0,
               Some(Fulfilling(filter.labels, filter.hasLabelKeys) - without), 0, 0, [])
  }

  /** Among the filters without a name, these are all for which both stores select the same sensors. */
  lemma StoresSelectTheSameIff(filter: QueryFilter)
    requires filter.name == ""
    ensures (forall info :: Matches(info, filter) <==> SqlMatches(info, filter)) <==>
            IsPlain(filter.search) && KeysCover(filter.labels, filter.hasLabelKeys)
  {
    var search := filter.search;
    if !IsPlain(search) {
      SearchPartsStores(filter);
    } else if !KeysCover(filter.labels, filter.hasLabelKeys) {
      LabelPartsStores(filter);
    } else {
      forall info
        ensures Matches(info, filter) <==> SqlMatches(info, filter)
      {
        StoresSelectTheSame(info, filter);
      }
    }
  }

  lemma SearchPartsStores(filter: QueryFilter)
    requires filter.name == "" && !IsPlain(filter.search)
    ensures exists info: SensorInfo :: info.labels.Some? && Matches(info, filter) != SqlMatches(info, filter)
  {
    hide Like, Sample, Contains;
    var lower := ToLower(filter.search);
    var text := Sample(lower);
    LowerPlain(filter.search);
    SampleParts(lower);
    SampleIsLower(lower);
    var info := Probe(filter, text, {});
    assert ToLower(text) == text;
    assert ToLower("%" + filter.search + "%") == "%" + lower + "%";
    assert Fulfilling(filter.labels, filter.hasLabelKeys) - {} == Fulfilling(filter.labels, filter.hasLabelKeys);
    assert !Matches(info, filter) && SqlMatches(info, filter);
  }

  lemma LabelPartsStores(filter: QueryFilter)
    requires filter.name == "" && IsPlain(filter.search) && !KeysCover(filter.labels, filter.hasLabelKeys)
    ensures exists info: SensorInfo :: info.labels.Some? && Matches(info, filter) != SqlMatches(info, filter)
  {
    var k :| k in filter.labels && filter.labels[k] == "" && k !in filter.hasLabelKeys;
    LacksOne(filter.labels, filter.hasLabelKeys, k);
    var info := Probe(filter, filter.search, {k});
    assert OccursAt(ToLower(filter.search), ToLower(filter.search), 0);
    assert Matches(info, filter) && !SqlMatches(info, filter);
  }
}
