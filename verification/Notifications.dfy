/** Carrying notification settings over to a new version of a package
    (packages/notifications/src/manifest.ts). */
module Notifications {
  import opened Wrappers
  import opened Strings

  // ----- conditions: left side, operator, right side -----

  predicate IsOperator(c: char)
  {
    c == '=' || c == '<' || c == '>'
  }

  /** What `s` starts with, up to the first character that is an operator, or is none. */
  function Stretch(s: string, operator: bool): (r: string)
    ensures r <= s
    ensures forall i :: 0 <= i < |r| ==> (IsOperator(r[i]) <==> operator)
    ensures |r| < |s| ==> (IsOperator(s[|r|]) <==> !operator)
  {
    if s == "" || IsOperator(s[0]) != operator then "" else [s[0]] + Stretch(s[1..], operator)
  }

  /** `split(/([=<>]+)/)`: texts and operators in turn, beginning and ending with a text. */
  function Parts(s: string): (parts: seq<string>)
    ensures |parts| >= 1
    decreases |s|
  {
    var text := Stretch(s, false);
    var rest := s[|text|..];
    if rest == "" then [text]
    else
      var operator := Stretch(rest, true);
      [text, operator] + Parts(rest[|operator|..])
  }

  /** `slice(2).join("")`. */
  function Concat(parts: seq<string>): string
  {
    if parts == [] then "" else parts[0] + Concat(parts[1..])
  }

  predicate HasOperator(condition: string)
  {
    |Parts(condition)| >= 3
  }

  function Left(condition: string): string
  {
    Parts(condition)[0]
  }

  function Operator(condition: string): string
    requires HasOperator(condition)
  {
    Parts(condition)[1]
  }

  function Right(condition: string): string
    requires HasOperator(condition)
  {
    Concat(Parts(condition)[2..])
  }

  lemma PartsUnfold(s: string) returns (text: string, operator: string, tail: string)
    ensures s == text + (operator + tail)
    ensures (forall i :: 0 <= i < |text| ==> !IsOperator(text[i]))
      && (forall i :: 0 <= i < |operator| ==> IsOperator(operator[i]))
    ensures tail != "" ==> !IsOperator(tail[0])
    ensures operator == "" ==> tail == "" && Parts(s) == [text]
    ensures operator != "" ==> Parts(s) == [text, operator] + Parts(tail) && |tail| < |s|
  {
    text := Stretch(s, false);
    var rest := s[|text|..];
    operator := Stretch(rest, true);
    tail := rest[|operator|..];
    assert rest == operator + tail;
    if rest != "" { assert rest[0] == s[|text|]; }
    if tail != "" { assert tail[0] == rest[|operator|]; }
  }

  /** Splitting loses nothing. */
  lemma {:induction false} PartsConcat(s: string)
    ensures Concat(Parts(s)) == s
    decreases |s|
  {
    hide *;
    var text, operator, tail := PartsUnfold(s);
    if operator == "" {
      ConcatOne(text);
      assert operator + tail == "";
      assert text + "" == text;
    } else {
      PartsConcat(tail);
      ConcatTwo(text, operator, Parts(tail));
    }
  }

  lemma ConcatOne(text: string)
    ensures Concat([text]) == text
  {
    assert Concat([]) == "";
    assert text + "" == text;
  }

  lemma ConcatTwo(a: string, b: string, rest: seq<string>)
    ensures Concat([a, b] + rest) == a + (b + Concat(rest))
    ensures ([a, b] + rest)[2..] == rest
  {
    assert ([a, b] + rest)[1..] == [b] + rest;
    assert ([b] + rest)[1..] == rest;
  }

  /** A condition: what stands before the first operator, that operator at full length, the rest. */
  predicate SplitsInto(condition: string, left: string, operator: string, right: string)
  {
    && condition == left + (operator + right) && operator != ""
    && (forall i :: 0 <= i < |left| ==> !IsOperator(left[i]))
    && (forall i :: 0 <= i < |operator| ==> IsOperator(operator[i]))
    && (right != "" ==> !IsOperator(right[0]))
  }

  lemma {:induction false} StretchOf(a: string, b: string, operator: bool)
    requires forall i :: 0 <= i < |a| ==> (IsOperator(a[i]) <==> operator)
    requires b != "" ==> (IsOperator(b[0]) <==> !operator)
    ensures Stretch(a + b, operator) == a
  {
    if a == "" {
      assert a + b == b;
    } else {
      assert (a + b)[1..] == a[1..] + b;
      StretchOf(a[1..], b, operator);
      assert [a[0]] + a[1..] == a;
    }
  }

  /** The three parts are the only ones of this kind. */
  lemma SplitIsUnique(condition: string, left: string, operator: string, right: string)
    requires SplitsInto(condition, left, operator, right)
    ensures HasOperator(condition)
    ensures Left(condition) == left && Operator(condition) == operator && Right(condition) == right
  {
    hide Stretch;
    StretchOf(left, operator + right, false);
    assert condition[|left|..] == operator + right;
    StretchOf(operator, right, true);
    assert (operator + right)[|operator|..] == right;
    assert Parts(condition) == [left, operator] + Parts(right);
    ConcatTwo(left, operator, Parts(right));
    PartsConcat(right);
  }

  lemma PartsSplit(condition: string)
    ensures HasOperator(condition) ==> SplitsInto(condition, Left(condition), Operator(condition), Right(condition))
    ensures HasOperator(condition) <==> exists i :: 0 <= i < |condition| && IsOperator(condition[i])
  {
    hide Parts;
    hide Concat;
    hide IsOperator;
    var text, operator, tail := PartsUnfold(condition);
    if operator == "" {
      assert condition == text;
    } else {
      assert condition[|text|] == operator[0];
      ConcatTwo(text, operator, Parts(tail));
      PartsConcat(tail);
    }
  }

  // ----- merging -----

  /** The new condition with the old one's right side, when both have an operator. */
  function MergeCondition(condition: string, old_: Option<string>): string
  {
    if !HasOperator(condition) then condition
    else
      var right := if old_.Some? && old_.value != "" && HasOperator(old_.value) then Right(old_.value)
        else Right(condition);
      Left(condition) + (Operator(condition) + right)
  }

  function NthCondition(conditions: seq<string>, i: nat): Option<string>
  {
    if i < |conditions| then Some(conditions[i]) else None
  }

  function MergeConditions(conditions: seq<string>, old_: seq<string>): (r: seq<string>)
    ensures |r| == |conditions|
  {
    seq(|conditions|, i requires 0 <= i < |conditions| => MergeCondition(conditions[i], NthCondition(old_, i)))
  }

  /** What the merge reads of a Gatus endpoint; the rest is copied. */
  datatype Endpoint = Endpoint(correlationId: string, enabled: bool, conditions: Option<seq<string>>, rest: string)

  /** `find` by correlation id: the first one. */
  function Find(endpoints: seq<Endpoint>, id: string): (r: Option<Endpoint>)
    ensures r.Some? ==> r.value in endpoints && r.value.correlationId == id
    ensures r.None? <==> forall i :: 0 <= i < |endpoints| ==> endpoints[i].correlationId != id
  {
    if endpoints == [] then None
    else if endpoints[0].correlationId == id then Some(endpoints[0])
    else Find(endpoints[1..], id)
  }

  function MergeEndpoint(e: Endpoint, old_: Endpoint): Endpoint
  {
    e.(enabled := old_.enabled,
       conditions := if e.conditions.Some? && old_.conditions.Some?
                     then Some(MergeConditions(e.conditions.value, old_.conditions.value)) else e.conditions)
  }

  function MergeEndpoints(endpoints: seq<Endpoint>, old_: seq<Endpoint>): (r: seq<Endpoint>)
    ensures |r| == |endpoints|
  {
    seq(|endpoints|, i requires 0 <= i < |endpoints| =>
      match Find(old_, endpoints[i].correlationId)
      case None => endpoints[i]
      case Some(o) => MergeEndpoint(endpoints[i], o))
  }

  /** `r` has the left side and operator of `condition` and, if the old one has an operator, its right side. */
  predicate TakesRight(condition: string, old_: Option<string>, r: string)
  {
    && (HasOperator(r) <==> HasOperator(condition))
    && (!HasOperator(condition) ==> r == condition)
    && (HasOperator(condition) ==>
          (&& Left(r) == Left(condition) && Operator(r) == Operator(condition)
           && Right(r) == if old_.Some? && HasOperator(old_.value) then Right(old_.value) else Right(condition)))
  }

  lemma MergedCondition(condition: string, old_: Option<string>)
    ensures TakesRight(condition, old_, MergeCondition(condition, old_))
  {
    hide Parts;
    PartsSplit(condition);
    if HasOperator(condition) {
      var right := if old_.Some? && old_.value != "" && HasOperator(old_.value) then Right(old_.value)
        else Right(condition);
      if old_.Some? { PartsSplit(old_.value); }
      SplitIsUnique(MergeCondition(condition, old_), Left(condition), Operator(condition), right);
    }
  }

  lemma MergeConditionAgain(condition: string, old_: Option<string>)
    ensures MergeCondition(MergeCondition(condition, old_), old_) == MergeCondition(condition, old_)
  {
    hide HasOperator;
    hide Left;
    hide Operator;
    hide Right;
    var r := MergeCondition(condition, old_);
    MergedCondition(condition, old_);
    MergedCondition(r, old_);
    PartsSplit(r);
    PartsSplit(condition);
  }

  /** Two conditions have the same right side, as far as the merge looks. */
  predicate SameRight(condition: string, old_: Option<string>)
  {
    HasOperator(condition) && old_.Some? && HasOperator(old_.value) ==> Right(condition) == Right(old_.value)
  }

  lemma MergeConditionIdentity(condition: string, old_: Option<string>)
    ensures MergeCondition(condition, old_) == condition <==> SameRight(condition, old_)
  {
    hide Parts;
    MergedCondition(condition, old_);
    PartsSplit(condition);
    if old_.Some? { PartsSplit(old_.value); }
  }

  /** An endpoint already has what the merge would take from the other. */
  predicate Agrees(e: Endpoint, old_: Endpoint)
  {
    && e.enabled == old_.enabled
    && (e.conditions.Some? && old_.conditions.Some? ==>
          forall i :: 0 <= i < |e.conditions.value| ==>
            SameRight(e.conditions.value[i], NthCondition(old_.conditions.value, i)))
  }

  lemma MergeEndpointIdentity(e: Endpoint, old_: Endpoint)
    ensures MergeEndpoint(e, old_) == e <==> Agrees(e, old_)
  {
    hide MergeCondition;
    hide SameRight;
    if e.conditions.Some? && old_.conditions.Some? {
      var cs, os := e.conditions.value, old_.conditions.value;
      forall i | 0 <= i < |cs| ensures MergeCondition(cs[i], NthCondition(os, i)) == cs[i]
        <==> SameRight(cs[i], NthCondition(os, i)) {
        MergeConditionIdentity(cs[i], NthCondition(os, i));
      }
      if MergeEndpoint(e, old_) == e { assert MergeConditions(cs, os) == cs; }
      if Agrees(e, old_) { assert MergeConditions(cs, os) == cs; }
    }
  }

  lemma MergeEndpointAgain(e: Endpoint, old_: Endpoint)
    ensures MergeEndpoint(MergeEndpoint(e, old_), old_) == MergeEndpoint(e, old_)
  {
    hide MergeCondition;
    if e.conditions.Some? && old_.conditions.Some? {
      var cs, os := e.conditions.value, old_.conditions.value;
      var once := MergeConditions(cs, os);
      forall i | 0 <= i < |cs| ensures MergeConditions(once, os)[i] == once[i] {
        MergeConditionAgain(cs[i], NthCondition(os, i));
      }
      assert MergeConditions(once, os) == once;
    }
  }

  /** The conditions after the merge: one for one, each with the right side of the old one at its place. */
  ghost predicate MergedConditions(before: Option<seq<string>>, old_: Option<seq<string>>, after: Option<seq<string>>)
  {
    if before.None? || old_.None? then after == before
    else
      && after.Some? && |after.value| == |before.value|
      && forall k :: 0 <= k < |before.value| ==>
           TakesRight(before.value[k], NthCondition(old_.value, k), after.value[k])
  }

  /** The merge keeps the new list's length, order and everything else of each endpoint; it takes the
      flag and the right sides from the first old endpoint with the same id. */
  lemma MergedEndpoints(endpoints: seq<Endpoint>, old_: seq<Endpoint>, i: nat)
    requires i < |endpoints|
    ensures var e, r, found := endpoints[i], MergeEndpoints(endpoints, old_)[i], Find(old_, endpoints[i].correlationId);
      && r.correlationId == e.correlationId && r.rest == e.rest
      && (found.None? ==> r == e)
      && (found.Some? ==> r.enabled == found.value.enabled)
      && (found.Some? ==> MergedConditions(e.conditions, found.value.conditions, r.conditions))
  {
    hide TakesRight;
    hide MergeCondition;
    var e, found := endpoints[i], Find(old_, endpoints[i].correlationId);
    if found.Some? && e.conditions.Some? && found.value.conditions.Some? {
      forall k | 0 <= k < |e.conditions.value| {
        MergedCondition(e.conditions.value[k], NthCondition(found.value.conditions.value, k));
      }
    }
  }

  lemma MergeTwice(endpoints: seq<Endpoint>, old_: seq<Endpoint>)
    ensures MergeEndpoints(MergeEndpoints(endpoints, old_), old_) == MergeEndpoints(endpoints, old_)
  {
    hide MergeEndpoint;
    var once := MergeEndpoints(endpoints, old_);
    forall i | 0 <= i < |endpoints| ensures MergeEndpoints(once, old_)[i] == once[i] {
      var found := Find(old_, endpoints[i].correlationId);
      if found.Some? {
        MergeEndpointAgain(endpoints[i], found.value);
        SameId(endpoints[i], found.value);
      }
    }
  }

  lemma SameId(e: Endpoint, old_: Endpoint)
    ensures MergeEndpoint(e, old_).correlationId == e.correlationId
  {
    hide MergeConditions;
  }

  /** Merging a list with itself changes nothing exactly when endpoints with one id agree with the first
      of them, so in particular when ids are distinct. */
  lemma MergeWithItself(endpoints: seq<Endpoint>)
    ensures MergeEndpoints(endpoints, endpoints) == endpoints
      <==> forall i :: 0 <= i < |endpoints| ==> Agrees(endpoints[i], Find(endpoints, endpoints[i].correlationId).value)
  {
    hide MergeEndpoint;
    hide Agrees;
    var r := MergeEndpoints(endpoints, endpoints);
    forall i | 0 <= i < |endpoints|
      ensures r[i] == endpoints[i] <==> Agrees(endpoints[i], Find(endpoints, endpoints[i].correlationId).value)
    {
      MergeEndpointIdentity(endpoints[i], Find(endpoints, endpoints[i].correlationId).value);
    }
    if forall i :: 0 <= i < |endpoints| ==> Agrees(endpoints[i], Find(endpoints, endpoints[i].correlationId).value) {
      assert r == endpoints;
    }
  }

  lemma {:induction false} FindDistinct(endpoints: seq<Endpoint>, i: nat)
    requires i < |endpoints|
    requires forall j, k :: 0 <= j < k < |endpoints| ==> endpoints[j].correlationId != endpoints[k].correlationId
    ensures Find(endpoints, endpoints[i].correlationId) == Some(endpoints[i])
  {
    if i > 0 { FindDistinct(endpoints[1..], i - 1); }
  }

  lemma DistinctMergeWithItself(endpoints: seq<Endpoint>)
    requires forall j, k :: 0 <= j < k < |endpoints| ==> endpoints[j].correlationId != endpoints[k].correlationId
    ensures MergeEndpoints(endpoints, endpoints) == endpoints
  {
    hide MergeEndpoints;
    hide SameRight;
    forall i | 0 <= i < |endpoints|
      ensures Agrees(endpoints[i], Find(endpoints, endpoints[i].correlationId).value)
    {
      FindDistinct(endpoints, i);
      SelfAgrees(endpoints[i]);
    }
    MergeWithItself(endpoints);
  }

  lemma SelfAgrees(e: Endpoint)
    ensures Agrees(e, e)
  {
    hide HasOperator;
    hide Right;
  }

  // ----- in terms of the texts and the lists -----

  /** A text without the three operator characters. */
  predicate Plain(text: string)
  {
    forall i :: 0 <= i < |text| ==> text[i] !in {'=', '<', '>'}
  }

  /** A text of those characters alone. */
  predicate Comparison(text: string)
  {
    text != "" && forall i :: 0 <= i < |text| ==> text[i] in {'=', '<', '>'}
  }

  lemma IsSplit(left: string, operator: string, right: string)
    requires Plain(left) && Comparison(operator) && (right != "" ==> Plain(right[..1]))
    ensures SplitsInto(left + operator + right, left, operator, right)
  {
    assert left + operator + right == left + (operator + right);
    if right != "" { assert right[..1][0] == right[0]; }
  }

  /** The user's right side goes into the new condition, whatever the operators are; an old condition
      without an operator gives none. */
  lemma RightSideCarried(left: string, operator: string, right: string, oldLeft: string, oldOperator: string,
                         oldRight: string)
    requires Plain(left) && Comparison(operator) && (right != "" ==> Plain(right[..1]))
    requires Plain(oldLeft) && Comparison(oldOperator) && (oldRight != "" ==> Plain(oldRight[..1]))
    ensures MergeCondition(left + operator + right, Some(oldLeft + oldOperator + oldRight))
      == left + operator + oldRight
    ensures MergeCondition(left + operator + right, None) == left + operator + right
    ensures MergeCondition(left + operator + right, Some(oldLeft)) == left + operator + right
    ensures MergeCondition(left, Some(oldLeft + oldOperator + oldRight)) == left
  {
    hide Parts;
    hide SplitsInto;
    IsSplit(left, operator, right);
    IsSplit(oldLeft, oldOperator, oldRight);
    SplitIsUnique(left + operator + right, left, operator, right);
    SplitIsUnique(oldLeft + oldOperator + oldRight, oldLeft, oldOperator, oldRight);
    NoOperator(left);
    NoOperator(oldLeft);
    assert left + (operator + right) == left + operator + right;
    assert left + (operator + oldRight) == left + operator + oldRight;
  }

  lemma NoOperator(text: string)
    requires Plain(text)
    ensures !HasOperator(text)
  {
    hide Parts;
    PartsSplit(text);
  }

  /** Of several old endpoints with the id the first is taken. */
  lemma {:induction false} FirstFound(endpoints: seq<Endpoint>, i: nat)
    requires i < |endpoints| && forall j :: 0 <= j < i ==> endpoints[j].correlationId != endpoints[i].correlationId
    ensures Find(endpoints, endpoints[i].correlationId) == Some(endpoints[i])
  {
    if i > 0 {
      assert forall j :: 0 <= j < i - 1 ==> endpoints[1..][j] == endpoints[j + 1];
      FirstFound(endpoints[1..], i - 1);
    }
  }

  // ----- custom endpoints: the metric is shared -----

  /** The copy of an endpoint shares its metric with the original. */
  class Metric {
    var treshold: Option<int>
    const range: string

    constructor (treshold: Option<int>, range: string)
      ensures this.treshold == treshold && this.range == range
    {
      this.treshold := treshold;
      this.range := range;
    }
  }

  datatype CustomEndpoint = CustomEndpoint(correlationId: string, enabled: bool, metric: Option<Metric>, rest: string)

  function FindCustom(endpoints: seq<CustomEndpoint>, id: string): (r: Option<CustomEndpoint>)
    ensures r.Some? ==> r.value in endpoints && r.value.correlationId == id
    ensures r.None? <==> forall i :: 0 <= i < |endpoints| ==> endpoints[i].correlationId != id
  {
    if endpoints == [] then None
    else if endpoints[0].correlationId == id then Some(endpoints[0])
    else FindCustom(endpoints[1..], id)
  }

  function MetricsOf(endpoints: seq<CustomEndpoint>): set<Metric>
  {
    set i | 0 <= i < |endpoints| && endpoints[i].metric.Some? :: endpoints[i].metric.value
  }

  type MetricMap = map<Metric, Option<int>>

  /** The thresholds of some metrics. */
  ghost function Thresholds(metrics: set<Metric>): (t: MetricMap)
    reads metrics
    ensures t.Keys == metrics
  {
    map m | m in metrics :: m.treshold
  }

  /** Whether an endpoint takes over a threshold from the old endpoint of its id. */
  predicate TakesOver(e: CustomEndpoint, old_: seq<CustomEndpoint>)
  {
    var found := FindCustom(old_, e.correlationId);
    e.metric.Some? && found.Some? && found.value.metric.Some?
  }

  /** The metric that the threshold is taken from. */
  function SourceMetric(e: CustomEndpoint, old_: seq<CustomEndpoint>): (m: Metric)
    requires TakesOver(e, old_)
    ensures m in MetricsOf(old_)
  {
    var found := FindCustom(old_, e.correlationId).value;
    FoundMetric(old_, found);
    found.metric.value
  }

  lemma FoundMetric(endpoints: seq<CustomEndpoint>, e: CustomEndpoint)
    requires e in endpoints && e.metric.Some?
    ensures e.metric.value in MetricsOf(endpoints)
  {
  }

  /** The thresholds after one endpoint was merged. */
  ghost function AfterOne(e: CustomEndpoint, old_: seq<CustomEndpoint>, t: MetricMap): (r: MetricMap)
    requires (e.metric.Some? ==> e.metric.value in t) && MetricsOf(old_) <= t.Keys
    ensures r.Keys == t.Keys
  {
    if TakesOver(e, old_) && t[SourceMetric(e, old_)].Some? then t[e.metric.value := t[SourceMetric(e, old_)]] else t
  }

  function Enabled(e: CustomEndpoint, old_: seq<CustomEndpoint>): CustomEndpoint
  {
    var found := FindCustom(old_, e.correlationId);
    e.(enabled := if found.Some? then found.value.enabled else e.enabled)
  }

  method MergeOne(e: CustomEndpoint, old_: seq<CustomEndpoint>, ghost metrics: set<Metric>)
    returns (merged: CustomEndpoint)
    requires (e.metric.Some? ==> e.metric.value in metrics) && MetricsOf(old_) <= metrics
    modifies if e.metric.Some? then {e.metric.value} else {}
    ensures merged == Enabled(e, old_)
    ensures Thresholds(metrics) == AfterOne(e, old_, old(Thresholds(metrics)))
  {
    hide MetricsOf;
    hide FindCustom;
    var found := FindCustom(old_, e.correlationId);
    if found.None? { return e; }
    merged := e.(enabled := found.value.enabled);
    if found.value.metric.Some? {
      FoundMetric(old_, found.value);
      if merged.metric.Some? && found.value.metric.value.treshold.Some? {
        merged.metric.value.treshold := found.value.metric.value.treshold;
      }
    }
  }

  /** The thresholds after the merge, endpoint by endpoint: metrics may be shared, even between the
      two lists. */
  ghost function MergedThresholds(endpoints: seq<CustomEndpoint>, old_: seq<CustomEndpoint>, t: MetricMap):
    (r: MetricMap)
    requires MetricsOf(endpoints) <= t.Keys && MetricsOf(old_) <= t.Keys
    ensures r.Keys == t.Keys
  {
    if endpoints == [] then t
    else
      var shorter, e := endpoints[..|endpoints| - 1], endpoints[|endpoints| - 1];
      MetricsOfStep(endpoints);
      AfterOne(e, old_, MergedThresholds(shorter, old_, t))
  }

  lemma MetricsOfStep(endpoints: seq<CustomEndpoint>)
    requires endpoints != []
    ensures var shorter, e := endpoints[..|endpoints| - 1], endpoints[|endpoints| - 1];
      MetricsOf(endpoints) == MetricsOf(shorter) + if e.metric.Some? then {e.metric.value} else {}
  {
    var shorter, e := endpoints[..|endpoints| - 1], endpoints[|endpoints| - 1];
    assert endpoints == shorter + [e];
    forall m ensures m in MetricsOf(endpoints) <==> m in MetricsOf(shorter) + if e.metric.Some? then {e.metric.value}
      else {} {
      if m in MetricsOf(shorter) {
        var i :| 0 <= i < |shorter| && shorter[i].metric == Some(m);
        assert endpoints[i].metric == Some(m);
      }
    }
  }

  lemma NoMetrics()
    ensures MetricsOf([]) == {}
  {
  }

  /** Merging the custom endpoints. The thresholds are written into the metrics of the new endpoints, so
      the list that was given changes with the result. */
  method MergeCustom(endpoints: seq<CustomEndpoint>, old_: seq<CustomEndpoint>) returns (merged: seq<CustomEndpoint>)
    modifies MetricsOf(endpoints)
    ensures |merged| == |endpoints|
    ensures forall i :: 0 <= i < |endpoints| ==> merged[i] == Enabled(endpoints[i], old_)
    ensures Thresholds(MetricsOf(endpoints) + MetricsOf(old_))
      == MergedThresholds(endpoints, old_, old(Thresholds(MetricsOf(endpoints) + MetricsOf(old_))))
  {
    hide MetricsOf;
    hide Enabled;
    hide AfterOne;
    hide Thresholds;
    NoMetrics();
    merged := [];
    ghost var metrics := MetricsOf(endpoints) + MetricsOf(old_);
    ghost var t := Thresholds(metrics);
    for i := 0 to |endpoints|
      invariant |merged| == i
      invariant forall j :: 0 <= j < i ==> merged[j] == Enabled(endpoints[j], old_)
      invariant MetricsOf(endpoints[..i]) <= metrics
      invariant Thresholds(metrics) == MergedThresholds(endpoints[..i], old_, t)
    {
      assert endpoints[..i + 1][..i] == endpoints[..i];
      MetricsOfStep(endpoints[..i + 1]);
      if endpoints[i].metric.Some? { FoundMetric(endpoints, endpoints[i]); }
      var e := MergeOne(endpoints[i], old_, metrics);
      merged := merged + [e];
    }
    assert endpoints[..|endpoints|] == endpoints;
  }

  lemma AfterOneIs(e: CustomEndpoint, old_: seq<CustomEndpoint>, t: MetricMap)
    requires (e.metric.Some? ==> e.metric.value in t) && MetricsOf(old_) <= t.Keys
    ensures var r := AfterOne(e, old_, t);
      && (forall m :: m in t && e.metric != Some(m) ==> r[m] == t[m])
      && (e.metric.Some? ==> r[e.metric.value] == Passed(e, old_, t))
  {
    hide FindCustom;
    hide SourceMetric;
    hide MetricsOf;
  }

  /** The threshold of an endpoint with a metric after taking over. */
  ghost function Passed(e: CustomEndpoint, old_: seq<CustomEndpoint>, t: MetricMap): Option<int>
    requires e.metric.Some? && e.metric.value in t && MetricsOf(old_) <= t.Keys
  {
    if TakesOver(e, old_) && t[SourceMetric(e, old_)].Some? then t[SourceMetric(e, old_)] else t[e.metric.value]
  }

  lemma PassedSame(e: CustomEndpoint, old_: seq<CustomEndpoint>, t: MetricMap, r: MetricMap)
    requires e.metric.Some? && e.metric.value in t && MetricsOf(old_) <= t.Keys && r.Keys == t.Keys
    requires r[e.metric.value] == t[e.metric.value] && forall m :: m in MetricsOf(old_) ==> r[m] == t[m]
    ensures Passed(e, old_, r) == Passed(e, old_, t)
  {
    hide TakesOver;
    hide SourceMetric;
    hide MetricsOf;
  }

  predicate Apart(endpoints: seq<CustomEndpoint>, old_: seq<CustomEndpoint>)
  {
    && MetricsOf(endpoints) !! MetricsOf(old_)
    && forall i, j :: 0 <= i < j < |endpoints| && endpoints[i].metric.Some? ==>
      endpoints[i].metric != endpoints[j].metric
  }

  lemma ApartStep(endpoints: seq<CustomEndpoint>, old_: seq<CustomEndpoint>)
    requires Apart(endpoints, old_) && endpoints != []
    ensures var shorter, e := endpoints[..|endpoints| - 1], endpoints[|endpoints| - 1];
      && Apart(shorter, old_)
      && (e.metric.Some? ==> e.metric.value !in MetricsOf(shorter) && e.metric.value !in MetricsOf(old_))
      && forall i :: 0 <= i < |shorter| && shorter[i].metric.Some? ==> shorter[i].metric != e.metric
  {
    var shorter, e := endpoints[..|endpoints| - 1], endpoints[|endpoints| - 1];
    MetricsOfStep(endpoints);
    if e.metric.Some? {
      NotEarlier(shorter, e);
      FoundMetric(endpoints, e);
    }
  }

  lemma InAll(endpoints: seq<CustomEndpoint>, i: nat)
    requires i < |endpoints| && endpoints[i].metric.Some?
    ensures endpoints[i].metric.value in MetricsOf(endpoints)
  {
    FoundMetric(endpoints, endpoints[i]);
  }

  /** When no metric is shared, each new metric takes over the threshold of the old endpoint of its
      id, if that has one, and no other threshold changes. */
  lemma {:induction false} ApartThresholds(endpoints: seq<CustomEndpoint>, old_: seq<CustomEndpoint>, t: MetricMap,
                                           i: nat)
    requires MetricsOf(endpoints) <= t.Keys && MetricsOf(old_) <= t.Keys && Apart(endpoints, old_)
    ensures forall m :: m in t && m !in MetricsOf(endpoints) ==> MergedThresholds(endpoints, old_, t)[m] == t[m]
    ensures i < |endpoints| && endpoints[i].metric.Some? ==>
      endpoints[i].metric.value in t
      && MergedThresholds(endpoints, old_, t)[endpoints[i].metric.value] == Passed(endpoints[i], old_, t)
    decreases |endpoints|
  {
    hide *;
    if endpoints == [] {
      MergedNothing(old_, t);
    } else {
      var n := |endpoints| - 1;
      var shorter, e := endpoints[..n], endpoints[n];
      MetricsOfStep(endpoints);
      ApartStep(endpoints, old_);
      ApartThresholds(shorter, old_, t, i);
      var before := MergedThresholds(shorter, old_, t);
      MergedStep(endpoints, old_, t);
      AfterOneIs(e, old_, before);
      forall m | m in MetricsOf(old_) ensures before[m] == t[m] {
        assert m !in MetricsOf(endpoints) by { Disjoint(endpoints, old_, m); }
      }
      if e.metric.Some? { PassedSame(e, old_, t, before); }
      if i < |endpoints| && endpoints[i].metric.Some? { InAll(endpoints, i); }
    }
  }

  lemma Disjoint(endpoints: seq<CustomEndpoint>, old_: seq<CustomEndpoint>, m: Metric)
    requires Apart(endpoints, old_) && m in MetricsOf(old_)
    ensures m !in MetricsOf(endpoints)
  {
  }

  lemma MergedNothing(old_: seq<CustomEndpoint>, t: MetricMap)
    requires MetricsOf([]) <= t.Keys && MetricsOf(old_) <= t.Keys
    ensures MergedThresholds([], old_, t) == t
  {
  }

  lemma MergedStep(endpoints: seq<CustomEndpoint>, old_: seq<CustomEndpoint>, t: MetricMap)
    requires MetricsOf(endpoints) <= t.Keys && MetricsOf(old_) <= t.Keys && endpoints != []
    ensures var shorter, e := endpoints[..|endpoints| - 1], endpoints[|endpoints| - 1];
      && MetricsOf(shorter) <= t.Keys && (e.metric.Some? ==> e.metric.value in t)
      && MergedThresholds(endpoints, old_, t) == AfterOne(e, old_, MergedThresholds(shorter, old_, t))
  {
    hide AfterOne;
    hide MetricsOf;
    MetricsOfStep(endpoints);
  }

  lemma NotEarlier(shorter: seq<CustomEndpoint>, e: CustomEndpoint)
    requires e.metric.Some? && forall i :: 0 <= i < |shorter| ==> shorter[i].metric != e.metric
    ensures e.metric.value !in MetricsOf(shorter)
  {
  }

  lemma {:induction false} FirstCustom(endpoints: seq<CustomEndpoint>, i: nat)
    requires i < |endpoints| && forall j :: 0 <= j < i ==> endpoints[j].correlationId != endpoints[i].correlationId
    ensures FindCustom(endpoints, endpoints[i].correlationId) == Some(endpoints[i])
  {
    if i > 0 {
      assert forall j :: 0 <= j < i - 1 ==> endpoints[1..][j] == endpoints[j + 1];
      FirstCustom(endpoints[1..], i - 1);
    }
  }

  /** The flag and the threshold come from the first old endpoint of the id, the threshold if both have a
      metric and the old one has a threshold; without such an endpoint all stays. */
  lemma TakenOver(e: CustomEndpoint, old_: seq<CustomEndpoint>, t: MetricMap, i: nat)
    requires e.metric.Some? && e.metric.value in t && MetricsOf(old_) <= t.Keys && i <= |old_|
    requires forall j :: 0 <= j < i ==> old_[j].correlationId != e.correlationId
    requires i < |old_| ==> old_[i].correlationId == e.correlationId
    ensures Enabled(e, old_) == e.(enabled := if i < |old_| then old_[i].enabled else e.enabled)
    ensures i < |old_| && old_[i].metric.Some? ==> old_[i].metric.value in t
    ensures Passed(e, old_, t) ==
      if i < |old_| && old_[i].metric.Some? && t[old_[i].metric.value].Some? then t[old_[i].metric.value]
      else t[e.metric.value]
  {
    hide MetricsOf;
    if i < |old_| {
      FirstCustom(old_, i);
      if old_[i].metric.Some? { InAll(old_, i); }
    }
  }

  // ----- updating the stored manifest -----

  function Assigned<T>(target: seq<T>, source: seq<T>): seq<T>
  {
    source + (if |target| > |source| then target[|source|..] else [])
  }

  /** Position by position. */
  lemma AssignedIs<T>(target: seq<T>, source: seq<T>, i: nat)
    ensures i < |source| ==> i < |Assigned(target, source)| && Assigned(target, source)[i] == source[i]
    ensures |source| <= i < |target| ==> i < |Assigned(target, source)| && Assigned(target, source)[i] == target[i]
    ensures i >= |source| && i >= |target| ==> i >= |Assigned(target, source)|
  {
  }

  /** `Object.assign` on two arrays: the listed positions are overwritten, later ones stay. */
  method AssignAll<T>(target: seq<T>, source: seq<T>) returns (r: seq<T>)
    ensures r == Assigned(target, source)
  {
    r := target;
    for i := 0 to |source|
      invariant |r| == if i > |target| then i else |target|
      invariant r[..i] == source[..i]
      invariant forall j :: i <= j < |target| ==> r[j] == target[j]
    {
      r := if i < |r| then r[i := source[i]] else r + [source[i]];
      assert r[..i + 1] == source[..i + 1];
    }
    assert r[..|source|] == source;
    assert r == r[..|source|] + r[|source|..];
  }

  datatype Stored = Stored(endpoints: Option<seq<Endpoint>>, customEndpoints: Option<seq<CustomEndpoint>>)

  function Updated<T>(target: Option<seq<T>>, source: Option<seq<T>>): Option<seq<T>>
  {
    if target.Some? && source.Some? then Some(Assigned(target.value, source.value)) else target
  }

  /** `updateEndpoints`: an error, and nothing written, when the manifest lacks what is to be updated. */
  method UpdateEndpoints(stored: Option<Stored>, update: Stored) returns (r: Result<Stored, string>)
    ensures r.Ok? <==>
      (&& stored.Some? && (update.endpoints.Some? ==> stored.value.endpoints.Some?)
       && (update.customEndpoints.Some? ==> stored.value.customEndpoints.Some?))
    ensures r.Ok? ==> r.value.endpoints == Updated(stored.value.endpoints, update.endpoints)
    ensures r.Ok? ==> r.value.customEndpoints == Updated(stored.value.customEndpoints, update.customEndpoints)
  {
    if stored.None? { return Err("No notifications found in manifest"); }
    var next := stored.value;
    if update.endpoints.Some? {
      if next.endpoints.None? { return Err("No endpoints found in manifest"); }
      var endpoints := AssignAll(next.endpoints.value, update.endpoints.value);
      next := next.(endpoints := Some(endpoints));
    }
    if update.customEndpoints.Some? {
      if next.customEndpoints.None? { return Err("No custom endpoints found in manifest"); }
      var customEndpoints := AssignAll(next.customEndpoints.value, update.customEndpoints.value);
      next := next.(customEndpoints := Some(customEndpoints));
    }
    r := Ok(next);
  }
}
