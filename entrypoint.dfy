/**
 * The decision logic of entrypoint.py: the bounded per-classification
 * notification cache, the bounded 1080p availability pre-check, and the
 * streamlink/ffmpeg argument lists and output path built before the two
 * processes are started. Processes, threads, signals and sleeping are not
 * part of this model; a sleep is counted instead.
 */
module Entrypoint {
  import opened Wrappers
  import opened Json
  import opened Text
  import opened Common

  // ------------------------------------------------- send_discord_message_if_necessary

  /** How many stream ids one classification remembers. */
  const MaxRememberedIds := 10

  predicate NoDuplicates(s: seq<string>) {
    forall i, j :: 0 <= i < j < |s| ==> s[i] != s[j]
  }

  /** `ids[-9:] + [id]`: the last (at most) nine remembered ids, then the new one. */
  function Remember(ids: seq<string>, id: string): (r: seq<string>)
    ensures |r| <= MaxRememberedIds && |r| == (if |ids| < 9 then |ids| else 9) + 1
    ensures r[|r| - 1] == id
    ensures r[..|r| - 1] == ids[|ids| - (|r| - 1)..]
    ensures NoDuplicates(ids) && id !in ids ==> NoDuplicates(r)
  {
    var kept := if |ids| <= 9 then ids else ids[|ids| - 9..];
    assert kept == ids[|ids| - |kept|..];
    if NoDuplicates(ids) && id !in ids then
      SuffixNoDuplicates(ids, |ids| - |kept|);
      AppendFreshNoDuplicates(kept, id);
      kept + [id]
    else
      kept + [id]
  }

  /** A suffix of a list without duplicates has none either, and holds only ids of the list. */
  lemma SuffixNoDuplicates(ids: seq<string>, j: nat)
    requires j <= |ids| && NoDuplicates(ids)
    ensures NoDuplicates(ids[j..]) && forall x :: x in ids[j..] ==> x in ids
  {
    var t := ids[j..];
    forall a, b | 0 <= a < b < |t|
      ensures t[a] != t[b]
    {
      assert t[a] == ids[j + a] && t[b] == ids[j + b];
    }
  }

  /** Appending an id the list does not hold keeps it free of duplicates. */
  lemma AppendFreshNoDuplicates(kept: seq<string>, id: string)
    requires NoDuplicates(kept) && id !in kept
    ensures NoDuplicates(kept + [id])
  {
    var r := kept + [id];
    forall a, b | 0 <= a < b < |r|
      ensures r[a] != r[b]
    {
      assert r[a] == kept[a];
      if b < |kept| {
        assert r[b] == kept[b];
      }
    }
  }

  ghost predicate CacheInvariant(sent: map<string, seq<string>>) {
    forall clf :: clf in sent ==> |sent[clf]| <= MaxRememberedIds && NoDuplicates(sent[clf])
  }

  /** Remembering a new id keeps every list bounded and free of duplicates. */
  lemma RememberKeepsInvariant(sent: map<string, seq<string>>, clf: string, id: string)
    requires CacheInvariant(sent)
    requires clf in sent ==> id !in sent[clf]
    ensures CacheInvariant(sent[clf := Remember(if clf in sent then sent[clf] else [], id)])
  {
    var ids := if clf in sent then sent[clf] else [];
    var r := Remember(ids, id);
    assert |r| <= MaxRememberedIds && NoDuplicates(r);
    var sent' := sent[clf := r];
    forall c | c in sent'
      ensures |sent'[c]| <= MaxRememberedIds && NoDuplicates(sent'[c])
    {
      if c == clf {
        assert sent'[c] == r;
      } else {
        assert sent'[c] == sent[c];
      }
    }
  }

  /** The process-wide `SENT_MESSAGE_STREAM_IDS`: classification to the stream ids already announced. */
  class NotificationCache {
    var sent: map<string, seq<string>>

    /** Every list is bounded and holds each id at most once. */
    ghost predicate Valid()
      reads this
    {
      CacheInvariant(sent)
    }

    constructor ()
      ensures Valid() && sent == map[]
    {
      sent := map[];
    }

    /**
     * `send_discord_message_if_necessary`: an id already announced for the
     * classification changes nothing and posts nothing; otherwise the id is
     * remembered and "[clf]message" is posted. Other classifications are not touched.
     */
    method SendIfNecessary(clf: string, streamId: string, message: string) returns (posted: Option<string>)
      requires Valid()
      modifies this
      ensures Valid()
      ensures clf in old(sent) && streamId in old(sent)[clf] ==> sent == old(sent) && posted == None
      ensures !(clf in old(sent) && streamId in old(sent)[clf]) ==>
                && sent == old(sent)[clf := Remember(if clf in old(sent) then old(sent)[clf] else [], streamId)]
                && posted == Some("[" + clf + "]" + message)
    {
      var ids: seq<string> := [];
      if clf in sent {
        if streamId in sent[clf] {
          return None;
        }
        ids := sent[clf];
      }
      RememberKeepsInvariant(sent, clf, streamId);
      sent := sent[clf := Remember(ids, streamId)];
      posted := Some("[" + clf + "]" + message);
    }
  }

  // ------------------------------------------------------- sleep_if_1080_not_available

  /** The resolution marker the pre-check looks for. */
  const HighResolution := "1080"
  /** The pre-check looks at most this many times. */
  const MaxChecks := 3

  /** Some comma-separated requested stream name contains "1080". */
  predicate Wants1080(targetStream: string) {
    exists target :: target in Split(targetStream, ",") && Contains(target, HighResolution)
  }

  /** Some advertised stream type contains "1080" (an empty set is false, as in the source). */
  predicate Offers1080(types: set<string>) {
    exists t :: t in types && Contains(t, HighResolution)
  }

  /** After this observation the pre-check stops: it raised, no 1080 was asked for, or 1080 is advertised. */
  predicate StopsAt(wants: bool, observed: Result<set<string>>) {
    observed.Err? || !wants || Offers1080(observed.value)
  }

  /**
   * `sleep_if_1080_not_available`. Call `k` of `get_stream_types` returns
   * `observed[k]` (the polling thread may change the answer between calls).
   * The pre-check stops at the first observation that raises, or at the first
   * check when no 1080 is requested or 1080 is advertised; every failed check
   * is followed by one sleep; there are never more than three checks.
   */
  method SleepIf1080NotAvailable(targetStream: string, observed: seq<Result<set<string>>>)
    returns (checks: nat, sleeps: nat, raised: Option<PyError>)
    requires |observed| >= MaxChecks
    ensures 1 <= checks <= MaxChecks
    ensures forall k :: 0 <= k < checks - 1 ==> !StopsAt(Wants1080(targetStream), observed[k])
    ensures StopsAt(Wants1080(targetStream), observed[checks - 1]) ==> sleeps == checks - 1
    ensures !StopsAt(Wants1080(targetStream), observed[checks - 1]) ==> checks == MaxChecks && sleeps == MaxChecks
    ensures raised == (if observed[checks - 1].Err? then Some(observed[checks - 1].error) else None)
    ensures !Wants1080(targetStream) ==> checks == 1 && sleeps == 0
  {
    var targetStreams := Split(targetStream, ",");
    var is1080InTarget := exists target :: target in targetStreams && Contains(target, HighResolution);
    checks, sleeps := 0, 0;
    var nthTry := 0;
    while nthTry <= 2
      invariant 0 <= nthTry <= MaxChecks
      invariant checks == nthTry && sleeps == nthTry
      invariant !is1080InTarget ==> nthTry == 0
      invariant forall k :: 0 <= k < nthTry ==> !StopsAt(is1080InTarget, observed[k])
    {
      checks := checks + 1;
      var streamTypes := observed[nthTry];
      if streamTypes.Err? {
        return checks, sleeps, Some(streamTypes.error);
      }
      var is1080InStream := exists t :: t in streamTypes.value && Contains(t, HighResolution);
      if !is1080InTarget || is1080InStream {
        return checks, sleeps, None;
      }
      sleeps := sleeps + 1;
      nthTry := nthTry + 1;
    }
    raised := None;
  }

  // --------------------------------------------------- download_stream: argv and path

  /** Where recordings go. */
  const DataDir := "/data"

  /** The decimal digits of a natural number, most significant first. */
  function Digits(n: nat): (s: string)
    ensures |s| >= 1 && AllDigits(s)
    decreases n
  {
    if n < 10 then [DigitChar(n)] else Digits(n / 10) + [DigitChar(n % 10)]
  }

  function DigitChar(d: nat): (c: char)
    requires d < 10
    ensures '0' <= c <= '9' && c as int - '0' as int == d
  {
    ('0' as int + d) as char
  }

  /** `str(n)` for an integer. */
  function DecimalString(n: int): (s: string)
    ensures n >= 0 ==> s != [] && AllDigits(s)
    ensures n < 0 ==> |s| >= 2 && s[0] == '-' && AllDigits(s[1..])
  {
    if n < 0 then "-" + Digits(-n) else Digits(n)
  }

  predicate AllDigits(s: string) {
    forall k :: 0 <= k < |s| ==> '0' <= s[k] <= '9'
  }

  /** The value of a string of decimal digits. */
  function DigitsValue(s: string): nat
    requires AllDigits(s)
  {
    if s == [] then 0 else DigitsValue(s[..|s| - 1]) * 10 + (s[|s| - 1] as int - '0' as int)
  }

  /** Reading an integer back from `str(n)`. */
  function ParseDecimal(s: string): Option<int>
  {
    if s != [] && s[0] == '-' && s[1..] != [] && AllDigits(s[1..]) then
      Some(-(DigitsValue(s[1..]) as int))
    else if s != [] && AllDigits(s) then
      Some(DigitsValue(s))
    else None
  }

  lemma {:induction false} DigitsValueOfDigits(n: nat)
    ensures DigitsValue(Digits(n)) == n
    decreases n
  {
    if n >= 10 {
      var s := Digits(n);
      assert s[..|s| - 1] == Digits(n / 10);
      DigitsValueOfDigits(n / 10);
    }
  }

  /** `str` loses nothing: the decimal string reads back as the same integer. */
  lemma DecimalRoundTrip(n: int)
    ensures ParseDecimal(DecimalString(n)) == Some(n)
  {
    if n < 0 {
      NonNegativeRoundTrip(-n);
      var d := Digits(-n);
      var s := "-" + d;
      assert s[0] == '-' && s[1..] == d;
      assert DecimalString(n) == s;
    } else {
      NonNegativeRoundTrip(n);
    }
  }

  lemma NonNegativeRoundTrip(n: nat)
    ensures ParseDecimal(Digits(n)) == Some(n)
  {
    var d := Digits(n);
    DigitsValueOfDigits(n);
    assert '0' <= d[0] <= '9';
  }

  /** `posixpath.join(a, b)`: an absolute `b` replaces `a`; otherwise one "/" is put between them when needed. */
  function PathJoin(a: string, b: string): (r: string)
    ensures b != [] && b[0] == '/' ==> r == b
    ensures !(b != [] && b[0] == '/') && a != [] && a[|a| - 1] != '/' ==> |r| == |a| + 1 + |b| && r[|a|] == '/'
    ensures !(b != [] && b[0] == '/') && (a == [] || a[|a| - 1] == '/') ==> |r| == |a| + |b|
  {
    if b != [] && b[0] == '/' then b
    else if a == [] || a[|a| - 1] == '/' then a + b
    else a + "/" + b
  }

  /** A relative `b` is joined after all of `a`, and the joined path ends with all of `b`. */
  lemma PathJoinKeepsBoth(a: string, b: string)
    requires !(b != [] && b[0] == '/')
    ensures a <= PathJoin(a, b)
    ensures |b| <= |PathJoin(a, b)| && PathJoin(a, b)[|PathJoin(a, b)| - |b|..] == b
  {
    var r := PathJoin(a, b);
    if a == [] || a[|a| - 1] == '/' {
      assert r == a + b;
    } else {
      assert r == a + "/" + b;
      assert r == a + ("/" + b);
    }
  }

  /** The index just after the last "/" in `p`, 0 when there is none. */
  function AfterLastSlash(p: string): (i: nat)
    ensures i <= |p|
    ensures i > 0 ==> p[i - 1] == '/'
    ensures forall k :: i <= k < |p| ==> p[k] != '/'
  {
    if p == [] then 0
    else if p[|p| - 1] == '/' then |p|
    else AfterLastSlash(p[..|p| - 1])
  }

  /** `s.rstrip("/")`. */
  function RStripSlashes(s: string): (r: string)
    ensures r <= s
    ensures r == [] || r[|r| - 1] != '/'
    ensures forall k :: |r| <= k < |s| ==> s[k] == '/'
  {
    if s == [] || s[|s| - 1] != '/' then s else RStripSlashes(s[..|s| - 1])
  }

  /** `posixpath.split(p)`: directory and last component; the directory loses its trailing slashes unless it is only slashes. */
  function PathSplit(p: string): (parts: (string, string))
    ensures |parts.0| + |parts.1| <= |p|
  {
    var i := AfterLastSlash(p);
    var head, tail := p[..i], p[i..];
    if head != [] && (exists k :: 0 <= k < |head| && head[k] != '/') then (RStripSlashes(head), tail)
    else (head, tail)
  }

  /**
   * The directory is a prefix of `p` and the name its slash-free end; only
   * slashes lie between them, and a directory holding anything besides
   * slashes does not end in one.
   */
  lemma PathSplitParts(p: string)
    ensures var (head, tail) := PathSplit(p);
            && head <= p && p[|p| - |tail|..] == tail
            && (forall k :: 0 <= k < |tail| ==> tail[k] != '/')
            && (forall k :: |head| <= k < |p| - |tail| ==> p[k] == '/')
            && ((exists k :: 0 <= k < |head| && head[k] != '/') ==> head[|head| - 1] != '/')
            && (|tail| < |p| ==> p[|p| - |tail| - 1] == '/')
            && (!(exists k :: 0 <= k < |head| && head[k] != '/') ==> |head| == |p| - |tail|)
  {
    var i := AfterLastSlash(p);
    var head, tail := p[..i], p[i..];
    if head != [] && (exists k :: 0 <= k < |head| && head[k] != '/') {
      var r := RStripSlashes(head);
      assert r <= head;
      assert forall k :: |r| <= k < i ==> p[k] == head[k];
    }
  }

  /** No two slashes in a row. */
  predicate NoDoubleSlash(p: string) {
    forall k :: 0 <= k < |p| - 1 ==> !DoubleSlashAt(p, k)
  }

  /** Slashes at `k` and `k + 1`. */
  predicate DoubleSlashAt(p: string, k: nat)
    requires k < |p| - 1
  {
    p[k] == '/' && p[k + 1] == '/'
  }

  /** Splitting a path without doubled slashes and joining the parts again gives the path back. */
  lemma RejoinSplit(p: string)
    requires NoDoubleSlash(p)
    ensures PathJoin(PathSplit(p).0, PathSplit(p).1) == p
  {
    var i := AfterLastSlash(p);
    if p[..i] != [] && (exists k :: 0 <= k < |p[..i]| && p[..i][k] != '/') {
      RejoinStripped(p, i);
    } else {
      RejoinUnstripped(p, i);
    }
  }

  /** A directory holding something besides slashes ends in exactly one slash, which the join puts back. */
  lemma RejoinStripped(p: string, i: nat)
    requires NoDoubleSlash(p) && i == AfterLastSlash(p) && p[..i] != []
    requires exists k :: 0 <= k < |p[..i]| && p[..i][k] != '/'
    ensures PathJoin(RStripSlashes(p[..i]), p[i..]) == p
  {
    var k :| 0 <= k < |p[..i]| && p[..i][k] != '/';
    assert p[k] != '/' && p[i - 1] == '/';
    assert i >= 2 && !DoubleSlashAt(p, i - 2);
    StripOneSlash(p[..i]);
    assert p[..i][..i - 1] == p[..i - 1];
    assert p == p[..i - 1] + "/" + p[i..];
  }

  /** A single trailing slash is all that `rstrip` removes. */
  lemma StripOneSlash(h: string)
    requires |h| >= 2 && h[|h| - 1] == '/' && h[|h| - 2] != '/'
    ensures RStripSlashes(h) == h[..|h| - 1]
  {
    assert h[..|h| - 1][|h| - 2] != '/';
  }

  /** A directory of slashes only, or none, is joined back by plain concatenation. */
  lemma RejoinUnstripped(p: string, i: nat)
    requires i == AfterLastSlash(p)
    ensures PathJoin(p[..i], p[i..]) == p
  {
    assert i < |p| ==> p[i..][0] == p[i] != '/';
    assert i > 0 ==> p[..i][i - 1] == '/';
    assert p[..i] + p[i..] == p;
  }

  /** The ffmpeg segment filename template: "%%" stands for "%", "%d" for the segment number; any other "%" is invalid. */
  function ExpandSegmentName(t: string, n: nat): Option<string>
    decreases |t|
  {
    if t == [] then Some([])
    else if t[0] == '%' then
      if |t| >= 2 && t[1] == '%' then Prepend("%", ExpandSegmentName(t[2..], n))
      else if |t| >= 2 && t[1] == 'd' then Prepend(Digits(n), ExpandSegmentName(t[2..], n))
      else None
    else Prepend([t[0]], ExpandSegmentName(t[1..], n))
  }

  function Prepend(s: string, o: Option<string>): Option<string>
  {
    match o
    case Some(v) => Some(s + v)
    case None => None
  }

  lemma PrependPrepend(a: string, b: string, o: Option<string>)
    ensures Prepend(a, Prepend(b, o)) == Prepend(a + b, o)
  {
    match o
    case Some(v) => assert a + (b + v) == (a + b) + v;
    case None =>
  }

  /** Text outside a "%" sequence is copied as it is. */
  lemma ExpandPlainChar(c: char, t: string, n: nat)
    requires c != '%'
    ensures ExpandSegmentName([c] + t, n) == Prepend([c], ExpandSegmentName(t, n))
  {
    assert ([c] + t)[1..] == t;
  }

  lemma ExpandPercentPercent(t: string, n: nat)
    ensures ExpandSegmentName("%%" + t, n) == Prepend("%", ExpandSegmentName(t, n))
  {
    assert ("%%" + t)[2..] == t;
  }

  lemma ReplacePercentCons(c: char, t: string)
    ensures Replace([c] + t, "%", "%%") == (if c == '%' then "%%" else [c]) + Replace(t, "%", "%%")
  {
    var s := [c] + t;
    assert s[..1] == [c] && s[1..] == t;
  }

  /** Escaping "%" as "%%" is undone by the template: the escaped text expands to itself. */
  lemma {:induction false} ExpandEscaped(p: string, rest: string, n: nat)
    ensures ExpandSegmentName(Replace(p, "%", "%%") + rest, n) == Prepend(p, ExpandSegmentName(rest, n))
    decreases |p|
  {
    if p == [] {
      assert Replace(p, "%", "%%") + rest == rest;
      PrependPrepend([], [], ExpandSegmentName(rest, n));
      assert Prepend([], ExpandSegmentName(rest, n)) == ExpandSegmentName(rest, n) by {
        match ExpandSegmentName(rest, n)
        case Some(v) => assert [] + v == v;
        case None =>
      }
    } else {
      var c, t := p[0], p[1..];
      assert p == [c] + t;
      ReplacePercentCons(c, t);
      ExpandEscaped(t, rest, n);
      var tail := Replace(t, "%", "%%") + rest;
      if c == '%' {
        assert Replace(p, "%", "%%") + rest == "%%" + tail;
        ExpandPercentPercent(tail, n);
      } else {
        assert Replace(p, "%", "%%") + rest == [c] + tail;
        ExpandPlainChar(c, tail, n);
      }
      PrependPrepend([c], t, ExpandSegmentName(rest, n));
    }
  }

  /** The argument list `[exe, "-m", "streamlink", "-O", url, stream]`, then the extra arguments as one element when non-empty. */
  method StreamlinkCommand(executable: string, targetUrl: string, targetStream: string, streamlinkArgs: string)
    returns (command: seq<string>)
    ensures |command| >= 6 && command[..6] == [executable, "-m", "streamlink", "-O", targetUrl, targetStream]
    ensures streamlinkArgs == [] ==> |command| == 6
    ensures streamlinkArgs != [] ==> |command| == 7 && command[6] == streamlinkArgs
  {
    command := [executable, "-m", "streamlink", "-O"];
    command := command + [targetUrl, targetStream];
    if streamlinkArgs != [] {
      command := command + [streamlinkArgs];
    }
  }

  /**
   * The path of the recording. `formatted` is what `format_filepath` returned
   * (after `strftime`); it is joined under the data directory (an absolute
   * `formatted` replaces it), split into directory and file name, and joined again.
   */
  method OutputPath(formatted: string) returns (filepath: string)
    ensures var parts := PathSplit(PathJoin(DataDir, formatted)); filepath == PathJoin(parts.0, parts.1)
    ensures NoDoubleSlash(PathJoin(DataDir, formatted)) ==> filepath == PathJoin(DataDir, formatted)
    ensures formatted != [] && formatted[0] == '/' && NoDoubleSlash(formatted) ==> filepath == formatted
  {
    filepath := PathJoin(DataDir, formatted);
    var split := PathSplit(filepath);
    var dirpath, filename := split.0, split.1;
    if NoDoubleSlash(filepath) {
      RejoinSplit(filepath);
    }
    filepath := PathJoin(dirpath, filename);
  }

  /**
   * The ffmpeg argument list for recording to `filepath`, built as the source
   * builds it: the copy-and-tag arguments, then the segment arguments, then
   * the output template.
   */
  method FfmpegCommand(title: string, author: string, category: string, datetime: string,
                       filepath: string, segmentMinutes: int)
    returns (command: seq<string>)
    ensures |command| == 24
    ensures command[..15] == TagArgs(title, author, category, datetime)
    ensures command[15..23] == SegmentArgs(segmentMinutes)
    ensures command[23] == SegmentTemplate(filepath)
  {
    command := TagArgs(title, author, category, datetime);
    command := command + SegmentArgs(segmentMinutes);
    command := command + [SegmentTemplate(filepath)];
  }

  /**
   * Copy the input without re-encoding, move the index to the front, and tag
   * title (truncated to its byte budget), artist, genre and date.
   */
  function TagArgs(title: string, author: string, category: string, datetime: string): (args: seq<string>)
    ensures |args| == 15
    ensures args[..8] == ["ffmpeg", "-i", "-", "-c", "copy", "-movflags", "+faststart", "-metadata"]
    ensures args[8] == "title=" + TruncateInByteSize(title, TitleByteLimit)
    ensures args[9..] == ["-metadata", "artist=" + author, "-metadata", "genre=" + category,
                          "-metadata", "date=" + datetime]
  {
    var copy := ["ffmpeg", "-i", "-", "-c", "copy", "-movflags", "+faststart", "-metadata"];
    var tags := ["-metadata", "artist=" + author, "-metadata", "genre=" + category, "-metadata", "date=" + datetime];
    var args := copy + ["title=" + TruncateInByteSize(title, TitleByteLimit)] + tags;
    assert args[..8] == copy && args[9..] == tags;
    args
  }

  /**
   * Cut the output into segments of `minutes` minutes, numbered from 1 with
   * timestamps restarting in each; the length argument reads back as the
   * number of seconds.
   */
  function SegmentArgs(minutes: int): (args: seq<string>)
    ensures |args| == 8
    ensures args[..3] == ["-f", "segment", "-segment_time"]
    ensures ParseDecimal(args[3]) == Some(minutes * 60)
    ensures args[4..] == ["-reset_timestamps", "1", "-segment_start_number", "1"]
  {
    DecimalRoundTrip(minutes * 60);
    ["-f", "segment", "-segment_time", DecimalString(minutes * 60),
     "-reset_timestamps", "1", "-segment_start_number", "1"]
  }

  /**
   * The output argument: the path with "%" escaped as "%%", then " part%d"
   * and ".ts"; every segment number expands it to the path followed by
   * " part", the number and ".ts".
   */
  function SegmentTemplate(filepath: string): (t: string)
    ensures forall n: nat :: ExpandSegmentName(t, n) == Some(filepath + " part" + Digits(n) + ".ts")
  {
    SegmentNames(filepath);
    Replace(filepath, "%", "%%") + " part%d" + ".ts"
  }

  /** Every segment number gives the path followed by " part", the number and ".ts". */
  lemma SegmentNames(filepath: string)
    ensures forall n: nat :: ExpandSegmentName(Replace(filepath, "%", "%%") + " part%d" + ".ts", n)
                            == Some(filepath + " part" + Digits(n) + ".ts")
  {
    forall n: nat
      ensures ExpandSegmentName(Replace(filepath, "%", "%%") + " part%d" + ".ts", n)
              == Some(filepath + " part" + Digits(n) + ".ts")
    {
      SegmentSuffix(filepath, n);
    }
  }

  /** The numbered-segment suffix expands to " part", the segment number and ".ts". */
  lemma SegmentSuffix(filepath: string, n: nat)
    ensures ExpandSegmentName(Replace(filepath, "%", "%%") + " part%d" + ".ts", n)
            == Some(filepath + " part" + Digits(n) + ".ts")
  {
    var suffix := " part%d.ts";
    assert Replace(filepath, "%", "%%") + " part%d" + ".ts" == Replace(filepath, "%", "%%") + suffix;
    ExpandEscaped(filepath, suffix, n);
    PartSuffix(n);
    assert filepath + (" part" + Digits(n) + ".ts") == filepath + " part" + Digits(n) + ".ts";
  }

  /** The fixed suffix " part%d.ts" expands to " part", the segment number and ".ts". */
  lemma PartSuffix(n: nat)
    ensures ExpandSegmentName(" part%d.ts", n) == Some(" part" + Digits(n) + ".ts")
  {
    ExpandPlainText(" part", "%d.ts", n);
    assert " part" + "%d.ts" == " part%d.ts";
    assert ExpandSegmentName("%d.ts", n) == Prepend(Digits(n), ExpandSegmentName(".ts", n)) by {
      assert "%d.ts"[2..] == ".ts";
    }
    ExpandPlainText(".ts", "", n);
    assert ".ts" + "" == ".ts";
    PrependPrepend(Digits(n), ".ts", Some([]));
    PrependPrepend(" part", Digits(n) + ".ts", Some([]));
    assert " part" + (Digits(n) + ".ts") + [] == " part" + Digits(n) + ".ts";
  }

  /** Text without "%" expands to itself. */
  lemma {:induction false} ExpandPlainText(p: string, rest: string, n: nat)
    requires '%' !in p
    ensures ExpandSegmentName(p + rest, n) == Prepend(p, ExpandSegmentName(rest, n))
    decreases |p|
  {
    if p == [] {
      assert p + rest == rest;
      match ExpandSegmentName(rest, n)
      case Some(v) => assert p + v == v;
      case None =>
    } else {
      assert p + rest == [p[0]] + (p[1..] + rest);
      ExpandPlainChar(p[0], p[1..] + rest, n);
      ExpandPlainText(p[1..], rest, n);
      PrependPrepend([p[0]], p[1..], ExpandSegmentName(rest, n));
      assert [p[0]] + p[1..] == p;
    }
  }
}
