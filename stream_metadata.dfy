/**
 * util/stream_metadata.py: classifying a probe result as online or offline,
 * extracting the broadcast's identity from it, and the deduplicating history
 * (`stack` of snapshots beside `stack_raw` of raw payloads) that each probe
 * updates. The probe result and the clock are inputs; the polling thread is
 * not part of this model.
 */
module Metadata {
  import opened Wrappers
  import opened Json
  import opened Common

  /** `is_online`: the probe reports no error (absent or null) and a stream id (present and not null). */
  function IsOnline(info: Json): bool
  {
    && Lookup(info, KeysOf(Single(KStr("error"))), JNull) == JNull
    && Lookup(info, KeysOf(Path([KStr("metadata"), KStr("id")])), JNull) != JNull
  }

  /** The payload carries an `error` that is not null. */
  predicate HasError(info: Json) {
    info.JObject? && "error" in info.fields && info.fields["error"] != JNull
  }

  /** The payload carries `metadata.id` and it is not null. */
  predicate HasStreamId(info: Json) {
    && info.JObject? && "metadata" in info.fields
    && info.fields["metadata"].JObject? && "id" in info.fields["metadata"].fields
    && info.fields["metadata"].fields["id"] != JNull
  }

  /** Online exactly when there is no error and there is a stream id, whatever else the payload holds. */
  lemma IsOnlineIff(info: Json)
    ensures IsOnline(info) <==> !HasError(info) && HasStreamId(info)
  {
    var metadataId := [KStr("metadata"), KStr("id")];
    assert metadataId[1..] == [KStr("id")];
  }

  /** The identity 5-tuple (plugin, id, author, category, title); each field is None when missing. */
  datatype Identity = Identity(plugin: Json, id: Json, author: Json, category: Json, title: Json)

  /** `safe_get(info, ["metadata", name])`. */
  function MetadataField(info: Json, name: string): Json
  {
    Lookup(info, [KStr("metadata"), KStr(name)], JNull)
  }

  /** The value under `name` in a dictionary, None for a missing key or a value that is not a dictionary. */
  function Member(obj: Json, name: string): Json
  {
    if obj.JObject? && name in obj.fields then obj.fields[name] else JNull
  }

  /**
   * `parse_metadata_from_stream_info`: the top-level `plugin` and the `id`,
   * `author`, `category` and `title` under `metadata`, each None wherever the
   * path is missing or runs into something that is not a dictionary.
   */
  function ParseMetadata(info: Json): (ident: Identity)
    ensures ident.plugin == Member(info, "plugin")
    ensures ident.id == Member(Member(info, "metadata"), "id")
    ensures ident.author == Member(Member(info, "metadata"), "author")
    ensures ident.category == Member(Member(info, "metadata"), "category")
    ensures ident.title == Member(Member(info, "metadata"), "title")
  {
    assert [KStr("metadata"), KStr("id")][1..] == [KStr("id")];
    assert [KStr("metadata"), KStr("author")][1..] == [KStr("author")];
    assert [KStr("metadata"), KStr("category")][1..] == [KStr("category")];
    assert [KStr("metadata"), KStr("title")][1..] == [KStr("title")];
    Identity(Lookup(info, [KStr("plugin")], JNull), MetadataField(info, "id"), MetadataField(info, "author"),
             MetadataField(info, "category"), MetadataField(info, "title"))
  }

  /**
   * The comparison `set_metadata` deduplicates with: the five fields pairwise
   * under Python's `==`, by way of their canonical representatives.
   */
  predicate SameIdentity(a: Identity, b: Identity) {
    && Norm(a.plugin) == Norm(b.plugin) && Norm(a.id) == Norm(b.id) && Norm(a.author) == Norm(b.author)
    && Norm(a.category) == Norm(b.category) && Norm(a.title) == Norm(b.title)
  }

  /** Two identities are the same exactly when all five fields are equal under `==`. */
  lemma SameIdentityIsPyEq(a: Identity, b: Identity)
    ensures SameIdentity(a, b) <==>
              && PyEq(a.plugin, b.plugin) && PyEq(a.id, b.id) && PyEq(a.author, b.author)
              && PyEq(a.category, b.category) && PyEq(a.title, b.title)
  {
    PyEqIffSameNorm(a.plugin, b.plugin);
    PyEqIffSameNorm(a.id, b.id);
    PyEqIffSameNorm(a.author, b.author);
    PyEqIffSameNorm(a.category, b.category);
    PyEqIffSameNorm(a.title, b.title);
  }

  /** The identity of an online payload always carries its stream id. */
  lemma OnlineHasId(info: Json)
    requires IsOnline(info)
    ensures ParseMetadata(info).id != JNull
    ensures HasStreamId(info) && ParseMetadata(info).id == info.fields["metadata"].fields["id"]
  {
    IsOnlineIff(info);
    assert [KStr("metadata"), KStr("id")][1..] == [KStr("id")];
  }

  /**
   * One history entry. The first entry of a history also carries `datetime`;
   * the entries appended on a later change do not.
   */
  datatype Snapshot = Snapshot(ident: Identity, timestamp: string, datetime: Option<string>)

  /** The two clock readings taken when an entry is made, as opaque strings. */
  datatype Clock = Clock(timestamp: string, datetime: string)

  /** What `get_stream_info` did: raised, or returned a payload. */
  datatype Probe = Raised | Returned(info: Json)

  /** The state `set_metadata` updates. */
  datatype History = History(isOnline: bool, stack: seq<Snapshot>, stackRaw: seq<Json>)

  const Initial := History(false, [], [])

  /**
   * The invariant of the history: the two lists have the same length, entry
   * `i` is the identity of online payload `i`, no two consecutive entries share
   * an identity, and only the first entry has a `datetime`.
   */
  ghost predicate WellFormed(h: History) {
    && |h.stack| == |h.stackRaw|
    && (forall i :: 0 <= i < |h.stack| ==> Records(h.stack[i], h.stackRaw[i]))
    && (forall i :: 0 < i < |h.stack| ==> Differ(h.stack[i - 1], h.stack[i]))
    && (forall i :: 0 <= i < |h.stack| ==> (h.stack[i].datetime.Some? <==> i == 0))
  }

  /** The entry was made from the online payload. */
  predicate Records(s: Snapshot, info: Json) {
    IsOnline(info) && s.ident == ParseMetadata(info)
  }

  /** Two entries whose identities are not equal under Python's `==`. */
  predicate Differ(a: Snapshot, b: Snapshot) {
    !SameIdentity(a.ident, b.ident)
  }

  /**
   * `set_metadata` as a state transition. A probe that raises changes
   * nothing; an offline payload only clears the online flag; an online payload
   * sets it and appends to both lists when the history is empty or its last
   * identity differs, and otherwise changes nothing else.
   */
  function Step(h: History, probe: Probe, now: Clock): (h': History)
    ensures probe.Raised? ==> h' == h
    ensures probe.Returned? ==> h'.isOnline == IsOnline(probe.info)
    ensures h.stack <= h'.stack && h.stackRaw <= h'.stackRaw
    ensures Grows(h, probe) ==> |h'.stack| == |h.stack| + 1 && h'.stackRaw == h.stackRaw + [probe.info]
    ensures Grows(h, probe) ==> h'.stack[|h.stack|] == Snapshot(ParseMetadata(probe.info), now.timestamp,
                                                              if h.stack == [] then Some(now.datetime) else None)
    ensures !Grows(h, probe) ==> h'.stack == h.stack && h'.stackRaw == h.stackRaw
  {
    match probe
    case Raised => h
    case Returned(info) =>
      if !IsOnline(info) then
        h.(isOnline := false)
      else
        var ident := ParseMetadata(info);
        if h.stack == [] then
          History(true, h.stack + [Snapshot(ident, now.timestamp, Some(now.datetime))], h.stackRaw + [info])
        else if SameIdentity(h.stack[|h.stack| - 1].ident, ident) then
          h.(isOnline := true)
        else
          History(true, h.stack + [Snapshot(ident, now.timestamp, None)], h.stackRaw + [info])
  }

  /**
   * Whether a probe adds an entry: it returned an online payload whose
   * identity is not the one at the tail of the history (any identity, when
   * the history is empty).
   */
  predicate Grows(h: History, probe: Probe) {
    && probe.Returned? && IsOnline(probe.info)
    && (h.stack == [] || !SameIdentity(h.stack[|h.stack| - 1].ident, ParseMetadata(probe.info)))
  }

  /** Every transition keeps the history well formed. */
  lemma StepPreservesWellFormed(h: History, probe: Probe, now: Clock)
    requires WellFormed(h)
    ensures WellFormed(Step(h, probe, now))
  {
    var h' := Step(h, probe, now);
    if Grows(h, probe) {
      var entry := Snapshot(ParseMetadata(probe.info), now.timestamp, if h.stack == [] then Some(now.datetime) else None);
      AppendPreservesWellFormed(h, entry, probe.info, true);
      assert h' == History(true, h.stack + [entry], h.stackRaw + [probe.info]);
    } else {
      assert h'.stack == h.stack && h'.stackRaw == h.stackRaw;
    }
  }

  /** Appending the entry of an online payload that differs from the tail keeps the history well formed. */
  lemma AppendPreservesWellFormed(h: History, s: Snapshot, info: Json, online: bool)
    requires WellFormed(h) && IsOnline(info) && s.ident == ParseMetadata(info)
    requires s.datetime.Some? <==> h.stack == []
    requires h.stack != [] ==> !SameIdentity(h.stack[|h.stack| - 1].ident, s.ident)
    ensures WellFormed(History(online, h.stack + [s], h.stackRaw + [info]))
  {
    var stack, raw := h.stack + [s], h.stackRaw + [info];
    var n := |h.stack|;
    forall i | 0 <= i < |stack|
      ensures Records(stack[i], raw[i])
    {
      if i < n {
        assert stack[i] == h.stack[i] && raw[i] == h.stackRaw[i];
      } else {
        assert stack[i] == s && raw[i] == info;
      }
    }
    forall i | 0 < i < |stack|
      ensures Differ(stack[i - 1], stack[i])
    {
      if i < n {
        assert stack[i - 1] == h.stack[i - 1] && stack[i] == h.stack[i];
      } else {
        assert stack[i - 1] == h.stack[n - 1] && stack[i] == s;
      }
    }
    forall i | 0 <= i < |stack|
      ensures stack[i].datetime.Some? <==> i == 0
    {
      if i < n {
        assert stack[i] == h.stack[i];
      } else {
        assert stack[i] == s;
      }
    }
  }

  /** A run of probes, in order, each with its clock reading. */
  function Run(h: History, probes: seq<(Probe, Clock)>): History
    decreases |probes|
  {
    if probes == [] then h else Run(Step(h, probes[0].0, probes[0].1), probes[1..])
  }

  lemma {:induction false} RunPreservesWellFormed(h: History, probes: seq<(Probe, Clock)>)
    requires WellFormed(h)
    ensures WellFormed(Run(h, probes))
    decreases |probes|
  {
    if probes != [] {
      StepPreservesWellFormed(h, probes[0].0, probes[0].1);
      RunPreservesWellFormed(Step(h, probes[0].0, probes[0].1), probes[1..]);
    }
  }

  /** Entries once recorded are never rewritten or removed: the old history is a prefix of the new. */
  lemma {:induction false} RunExtends(h: History, probes: seq<(Probe, Clock)>)
    ensures h.stack <= Run(h, probes).stack && h.stackRaw <= Run(h, probes).stackRaw
    decreases |probes|
  {
    if probes != [] {
      var h' := Step(h, probes[0].0, probes[0].1);
      RunExtends(h', probes[1..]);
      assert h.stack <= h'.stack && h.stackRaw <= h'.stackRaw;
      PrefixTransitive(h.stack, h'.stack, Run(h', probes[1..]).stack);
      PrefixTransitive(h.stackRaw, h'.stackRaw, Run(h', probes[1..]).stackRaw);
    }
  }

  lemma PrefixTransitive<T>(a: seq<T>, b: seq<T>, c: seq<T>)
    requires a <= b && b <= c
    ensures a <= c
  {
    assert c[..|a|] == b[..|a|];
  }

  /**
   * Probes that raise, are offline, or carry an identity equal (under
   * Python's `==`) to the one at the tail of a non-empty history never grow it.
   */
  lemma {:induction false} RunSameIdentity(h: History, probes: seq<(Probe, Clock)>, ident: Identity)
    requires h.stack != [] && h.stack[|h.stack| - 1].ident == ident
    requires forall k :: 0 <= k < |probes| ==>
               probes[k].0.Returned? && IsOnline(probes[k].0.info) ==> SameIdentity(ident, ParseMetadata(probes[k].0.info))
    ensures Run(h, probes).stack == h.stack && Run(h, probes).stackRaw == h.stackRaw
    decreases |probes|
  {
    if probes != [] {
      var h' := Step(h, probes[0].0, probes[0].1);
      RunSameIdentity(h', probes[1..], ident);
    }
  }

  /** From a fresh history, any number of probes returning one and the same online payload leave exactly one entry. */
  lemma RepeatedProbeRecordedOnce(info: Json, clocks: seq<Clock>)
    requires IsOnline(info) && clocks != []
    ensures var probes := seq(|clocks|, k requires 0 <= k < |clocks| => (Returned(info), clocks[k]));
            && |Run(Initial, probes).stack| == 1
            && Run(Initial, probes).stackRaw == [info]
            && Run(Initial, probes).isOnline
  {
    var probes := seq(|clocks|, k requires 0 <= k < |clocks| => (Returned(info), clocks[k]));
    var h1 := Step(Initial, probes[0].0, probes[0].1);
    RunSameIdentity(h1, probes[1..], ParseMetadata(info));
    RunOnlineStaysOnline(h1, probes[1..], info);
  }

  lemma {:induction false} RunOnlineStaysOnline(h: History, probes: seq<(Probe, Clock)>, info: Json)
    requires h.isOnline && IsOnline(info)
    requires forall k :: 0 <= k < |probes| ==> probes[k].0 == Returned(info)
    ensures Run(h, probes).isOnline
    decreases |probes|
  {
    if probes != [] {
      RunOnlineStaysOnline(Step(h, probes[0].0, probes[0].1), probes[1..], info);
    }
  }

  /** `get_latest_metadata`: the last entry, IndexError when the history is empty. */
  function LatestMetadata(h: History): (r: Result<Snapshot>)
    ensures h.stack == [] ==> r == Err(IndexError)
    ensures h.stack != [] ==> r == Ok(h.stack[|h.stack| - 1])
  {
    if h.stack == [] then Err(IndexError) else Ok(h.stack[|h.stack| - 1])
  }

  /**
   * After a probe that returns an online payload, the latest entry and the
   * last raw payload carry an identity equal to that payload's under
   * Python's `==`: the payload's own when it was appended, the earlier equal
   * one when it was not.
   */
  lemma LatestAfterOnline(h: History, info: Json, now: Clock)
    requires WellFormed(h) && IsOnline(info)
    ensures var h' := Step(h, Returned(info), now);
            && LatestMetadata(h').Ok? && SameIdentity(LatestMetadata(h').value.ident, ParseMetadata(info))
            && h'.stackRaw != [] && SameIdentity(ParseMetadata(h'.stackRaw[|h'.stackRaw| - 1]), ParseMetadata(info))
  {
    var h' := Step(h, Returned(info), now);
    var ident := ParseMetadata(info);
    var last := if h.stack == [] then info else h.stackRaw[|h.stack| - 1];
    var tail := if h.stack == [] then ident else h.stack[|h.stack| - 1].ident;
    if h.stack != [] {
      assert Records(h.stack[|h.stack| - 1], last);
    }
    LatestAfterOnlineStep(h, info, now, last, tail);
  }

  /** The step itself, given the tail's identity and payload before it. */
  lemma LatestAfterOnlineStep(h: History, info: Json, now: Clock, last: Json, tail: Identity)
    requires |h.stack| == |h.stackRaw| && IsOnline(info)
    requires h.stack != [] ==> h.stackRaw[|h.stack| - 1] == last && h.stack[|h.stack| - 1].ident == tail
    requires h.stack != [] ==> tail == ParseMetadata(last)
    ensures var h' := Step(h, Returned(info), now);
            && LatestMetadata(h').Ok? && SameIdentity(LatestMetadata(h').value.ident, ParseMetadata(info))
            && h'.stackRaw != [] && SameIdentity(ParseMetadata(h'.stackRaw[|h'.stackRaw| - 1]), ParseMetadata(info))
  {
    var h' := Step(h, Returned(info), now);
    var ident := ParseMetadata(info);
    if Grows(h, Returned(info)) {
      assert h'.stack[|h'.stack| - 1].ident == ident;
      assert h'.stackRaw[|h'.stackRaw| - 1] == info;
    } else {
      assert h'.stack == h.stack && h'.stackRaw == h.stackRaw;
      assert SameIdentity(tail, ident);
    }
  }

  /**
   * Deduplication uses Python's `==`: a payload whose title is `1` is not
   * recorded after one whose title is `true` and that agrees on everything else.
   */
  lemma TrueTitleThenOneRecordedOnce(now: Clock, later: Clock)
    ensures var first := Payload(JBool(true));
            var second := Payload(JInt(1));
            && first != second
            && IsOnline(first) && IsOnline(second)
            && |Run(Initial, [(Returned(first), now), (Returned(second), later)]).stack| == 1
  {
    var first, second := Payload(JBool(true)), Payload(JInt(1));
    PayloadIdentity(JBool(true));
    PayloadIdentity(JInt(1));
    assert first.fields["metadata"].fields["title"] != second.fields["metadata"].fields["title"];
    var h1 := Step(Initial, Returned(first), now);
    assert SameIdentity(h1.stack[0].ident, ParseMetadata(second));
    RunTwo(Initial, (Returned(first), now), (Returned(second), later));
  }

  /** The payload is online, and its identity has stream id "1", the given title and nothing else. */
  lemma PayloadIdentity(title: Json)
    ensures IsOnline(Payload(title))
    ensures ParseMetadata(Payload(title)) == Identity(JNull, JStr("1"), JNull, JNull, title)
  {
    var info := Payload(title);
    var m := Member(info, "metadata");
    assert m.fields["id"] == JStr("1") && m.fields["title"] == title;
    IsOnlineIff(info);
  }

  /** A run of two probes is two steps. */
  lemma RunTwo(h: History, p: (Probe, Clock), q: (Probe, Clock))
    ensures Run(h, [p, q]) == Step(Step(h, p.0, p.1), q.0, q.1)
  {
    var h1 := Step(h, p.0, p.1);
    assert [p, q][1..] == [q] && [q][1..] == [];
    assert Run(h, [p, q]) == Run(h1, [q]);
    assert Run(h1, [q]) == Run(Step(h1, q.0, q.1), []);
  }

  /** An online payload with stream id "1" whose title is `title`. */
  function Payload(title: Json): Json
  {
    JObject(map["metadata" := JObject(map["id" := JStr("1"), "title" := title])])
  }

  /**
   * `get_stream_types`: the keys of `streams` in the last raw payload, none
   * when that field is missing; IndexError on an empty history and
   * AttributeError when `streams` is there but is not an object.
   */
  function StreamTypes(h: History): (r: Result<set<string>>)
    ensures h.stackRaw == [] ==> r == Err(IndexError)
    ensures h.stackRaw != [] ==>
              var last := h.stackRaw[|h.stackRaw| - 1];
              && (!(last.JObject? && "streams" in last.fields) ==> r == Ok({}))
              && (last.JObject? && "streams" in last.fields && last.fields["streams"].JObject? ==>
                    r == Ok(last.fields["streams"].fields.Keys))
              && (last.JObject? && "streams" in last.fields && !last.fields["streams"].JObject? ==>
                    r == Err(AttributeError))
  {
    if h.stackRaw == [] then Err(IndexError)
    else
      var last := h.stackRaw[|h.stackRaw| - 1];
      assert [KStr("streams")][1..] == [];
      assert !(last.JObject? && "streams" in last.fields) ==>
               Lookup(last, [KStr("streams")], JObject(map[])) == JObject(map[]);
      var none: map<string, Json> := map[];
      assert none.Keys == {};
      match Lookup(last, [KStr("streams")], JObject(map[]))
      case JObject(streams) => Ok(streams.Keys)
      case _ => Err(AttributeError)
  }

  /** The recorder's store of broadcast metadata, updated in place by each probe. */
  class StreamMetadata {
    const targetUrl: string
    var isOnline: bool
    var stack: seq<Snapshot>
    var stackRaw: seq<Json>

    function State(): History
      reads this
    {
      History(isOnline, stack, stackRaw)
    }

    ghost predicate Valid()
      reads this
    {
      WellFormed(State())
    }

    /**
     * `__init__` without its polling thread: starts offline and probes once.
     * `stack` and `stack_raw` are class attributes that every instance
     * shares, so a new store continues from what earlier stores recorded
     * (`Initial`'s lists for the first one): `sharedStack` and
     * `sharedStackRaw` are their contents at construction time.
     */
    constructor (targetUrl: string, sharedStack: seq<Snapshot>, sharedStackRaw: seq<Json>, probe: Probe, now: Clock)
      requires WellFormed(History(false, sharedStack, sharedStackRaw))
      ensures Valid() && this.targetUrl == targetUrl
      ensures State() == Step(History(false, sharedStack, sharedStackRaw), probe, now)
    {
      this.targetUrl := targetUrl;
      isOnline := false;
      stack := sharedStack;
      stackRaw := sharedStackRaw;
      new;
      SetMetadata(probe, now);
    }

    /** `set_metadata` with the probe's outcome and the clock as inputs. */
    method SetMetadata(probe: Probe, now: Clock)
      requires Valid()
      modifies this
      ensures Valid()
      ensures State() == Step(old(State()), probe, now)
    {
      ghost var h := State();
      StepPreservesWellFormed(h, probe, now);
      if probe.Raised? {
        return;
      }
      var info := probe.info;
      isOnline := IsOnline(info);
      if !isOnline {
        assert State() == h.(isOnline := false);
        assert State() == Step(h, probe, now);
        return;
      }
      var ident := ParseMetadata(info);
      if stack == [] {
        stackRaw := stackRaw + [info];
        stack := stack + [Snapshot(ident, now.timestamp, Some(now.datetime))];
        assert State() == History(true, h.stack + [Snapshot(ident, now.timestamp, Some(now.datetime))], h.stackRaw + [info]);
        assert State() == Step(h, probe, now);
        return;
      }
      var latest := stack[|stack| - 1];
      if SameIdentity(latest.ident, ident) {
        assert State() == h.(isOnline := true);
        assert State() == Step(h, probe, now);
        return;
      }
      assert probe == Returned(info) && IsOnline(info) && h.stack != [];
      assert !SameIdentity(h.stack[|h.stack| - 1].ident, ident);
      stackRaw := stackRaw + [info];
      stack := stack + [Snapshot(ident, now.timestamp, None)];
      assert State() == History(true, h.stack + [Snapshot(ident, now.timestamp, None)], h.stackRaw + [info]);
      assert State() == Step(h, probe, now);
    }

    /** `get_latest_metadata`. */
    function GetLatestMetadata(): (r: Result<Snapshot>)
      reads this
      ensures stack == [] <==> r.Err?
      ensures r.Ok? ==> r.value == stack[|stack| - 1]
    {
      LatestMetadata(State())
    }

    /** `get_stream_types`. */
    function GetStreamTypes(): (r: Result<set<string>>)
      reads this
      ensures stackRaw == [] <==> r == Err(IndexError)
    {
      StreamTypes(State())
    }
  }
}
