# streamlink-recorder core, modelled in Dafny

streamlink-recorder watches one live channel. It probes the channel's
metadata (an online/offline flag and the broadcast identity) and keeps a
deduplicated history of the broadcasts it has seen. When the channel is
online it builds a `streamlink | ffmpeg` pipeline that writes segmented
`.ts` files at a path made from a filename template: under `/data`, unless
the formatted template is an absolute path, which then replaces `/data`.
When a recording starts ("ON") and when it ends ("OFF") it sends a Discord
notice. Each of the two classifications remembers the last 10 stream ids it
announced and skips those, so an id that has dropped out of the last 10 is
announced again. Nothing is posted when no webhook (`DISCORD_WEBHOOK`) is
configured.

This project models the logic behind those decisions, and proves what the
logic promises:

- `util/common.py`:
  - `safe_get` (json.dfy, common.dfy).
  - `truncate_string_in_byte_size`, over a real UTF-8 encoder and an
    `errors='ignore'` decoder following RFC 3629 (utf8.dfy).
  - `format_filepath` up to its `strftime` call, over models of
    `str.replace`, `str.split` and `str.strip` (text.dfy).
- `util/event.py`: the `Subscriber` mailbox and the `Publisher` topic table,
  as classes updated in place (event.dfy).
- `util/stream_metadata.py` (stream_metadata.dfy):
  - online detection;
  - identity extraction;
  - the `StreamMetadata` store, as a class. Its `set_metadata` is proved
    against the pure transition `Step`. The history invariant, the
    deduplication and the append-only growth are proved about `Step` and its
    iterate `Run`.
- `entrypoint.py` (entrypoint.dfy):
  - the per-classification notification cache;
  - the bounded 1080p pre-check loop;
  - the streamlink and ffmpeg argument lists;
  - the output path (posixpath `join`/`split`);
  - the ffmpeg segment-name template, with the proof that escaping `%` is
    undone by ffmpeg's expansion.

Modelling choices:

- Probe payloads are the `Json` datatype. A Python exception raised inside
  the core is a `Result`/`Option` value (`IndexError`, `AttributeError`, or
  a `safe_get` default), never a precondition.
- The outside world is passed in as parameters:
  - the outcome of `get_stream_info` (`Probe`);
  - the two clock readings of `datetime.now()` (`Clock`);
  - the answers successive `get_stream_types` calls give (a sequence);
  - the interpreter path.
- Sleeps are counted, not performed.
- Python's `==` on payload values is `PyEq`. Under it `True == 1` and
  `False == 0`, and lists and dictionaries compare element by element. The
  deduplication test compares canonical forms (`Norm`), which is proved
  equivalent.
- The model follows `util/stream_metadata.py` as written. The newer store
  that `entrypoint.py` expects differs from it:
  - `set_metadata` neither keeps a `last_stack` nor publishes events.
  - Going offline does not clear the history.
  - Only the first history entry has a `datetime`.
  - The pipeline code in `entrypoint.py` calls store members
    (`get_current_metadata`, `add_subscriber`, `last_stack`) and a
    three-argument constructor that `util/stream_metadata.py` does not
    define. The model takes the store as defined in `util/stream_metadata.py`.
- `FFMPEG_SEGMENT_SIZE` is the result of `int(...)`, so it is never `None`.
  The segment arguments are therefore always present, and
  `FfmpegCommand` has no branch for their absence.

## Model

| member | source | states |
|---|---|---|
| Json.Norm | util/stream_metadata.py:92-98 | At the top level the canonical form holds no boolean: `True` and `False` become 1 and 0. Scalars other than booleans are kept, and lists and dictionaries keep their length and keys. |
| Json.NormElementwise | util/stream_metadata.py:92-98 | The canonical form of a list or dictionary holds the canonical form of each element, so booleans become 1 and 0 at any depth. |
| Json.PyEqIffSameNorm | util/stream_metadata.py:92-98 | Two values are equal under Python's `==` exactly when their canonical forms are identical. |
| Json.PyEqReflexive | util/stream_metadata.py:92-98 | Every value is `==` to itself. |
| Json.PyEqSymmetric | util/stream_metadata.py:92-98 | `==` on payload values is symmetric. |
| Json.BoolEqualsOne | util/stream_metadata.py:97 | `True == 1` holds although the two values differ. |
| Common.Subscript | util/common.py:25 | `result[key]`: a string key into a dictionary gives its value exactly when the key is present. An index into a list or a string succeeds exactly when `-n <= i < n`. It then gives element `i`, or `i + n` for a negative `i`; for a string that element is a one-character string. Every other combination raises. |
| Common.NormalIndex | util/common.py:25 | A Python index into `n` elements succeeds exactly when `-n <= i < n`. It then names position `i`, or `i + n` for a negative `i`. |
| Common.SafeGet | util/common.py:14-28 | The loop's result is the value at the end of the key path, or `default` as soon as a step would raise. A bare key behaves as the one-element path. |
| Common.WalkFailed | util/common.py:24-28 | Once a prefix of the path fails, the whole path fails, whatever keys follow. |
| Common.LookupEmptyPath | util/common.py:23-26 | An empty key list returns the data itself. |
| Common.LookupFailsAtStep | util/common.py:24-28 | A step that would raise makes the lookup return `default`, whatever keys follow. |
| Common.LookupMissing | util/common.py:25-28 | A missing dictionary key, or a string key into a non-object, gives `default`. |
| Common.TruncateInByteSize | util/common.py:58-67 | A string whose encoding fits is returned unchanged. Otherwise the result is the longest whole-code-point prefix fitting in `size` bytes, stripped, followed by "...". |
| Common.TruncatedFits | util/common.py:65-66 | A string that does not fit comes back ending in "...", and the part before the "..." encodes to at most `size` bytes. |
| Common.StripEncodesShorter | util/common.py:66 | Stripping never makes the encoding longer. |
| Common.FormatFilepath | util/common.py:70-96 | The four fields are substituted in order. The full title goes in unless some `/`-segment of the resulting path encodes to more than 224 bytes; then the title truncated to 147 bytes goes in. |
| Utf8.Encode | util/common.py:65-66 | `str.encode('utf8')` takes one to four bytes per character and never starts with a continuation byte. |
| Utf8.Decode | util/common.py:66 | `bytes.decode('utf8', 'ignore')` never yields more characters than there are bytes. |
| Utf8.FitLenLongest | util/common.py:66 | The whole-character prefix that `FitLen` counts encodes within `size` bytes, and one more character would not fit. |
| Utf8.DecodeEncode | util/common.py:65-66 | Decoding with `errors='ignore'` inverts UTF-8 encoding. |
| Utf8.DecodePartialChar | util/common.py:66 | A character cut short by the byte limit leaves only continuation bytes, which the decoder drops. |
| Utf8.DecodeTruncated | util/common.py:66 | Decoding the first `size` bytes of an encoding gives back exactly the longest prefix of whole characters that fits. |
| Text.Replace | util/common.py:79-96 | `str.replace` with a replacement at least as long as the pattern never shortens the string, and with one no longer never lengthens it. That every occurrence is replaced follows from ReplaceIsJoinOfSplit and SplitPiecesFree. |
| Text.Join | util/common.py:87 | The inverse of the `split` called here, which pins that split down (see JoinSplit); the core itself calls no `str.join`. Joining no pieces gives the empty string, and joining one piece gives that piece. With more, the result is at least as long as the first piece plus the separator. |
| Text.JoinEnds | util/common.py:87 | For the inverse of this `split`: the joined string starts with the first piece and ends with the last one. |
| Text.Split | util/common.py:87 | `str.split` always yields at least one piece. |
| Text.SplitPiecesFree | util/common.py:79-87 | For any non-empty separator, such as a `{title}` placeholder or the "/" of a path, no piece of the split contains the separator. With ReplaceIsJoinOfSplit, every occurrence of a placeholder is therefore replaced. |
| Text.SplitOnCharPiecesFree | util/common.py:87 | No piece of a split on one character contains that character. |
| Text.JoinSplit | util/common.py:87 | Joining the split pieces with the separator gives the string back. |
| Text.ReplaceIsJoinOfSplit | util/common.py:79-82 | `str.replace` equals splitting on the pattern and joining with the replacement. |
| Text.ReplaceWithItself | util/common.py:79-82 | Replacing a placeholder with itself changes nothing. |
| Text.ReplaceAbsent | util/common.py:79-82 | A template without the placeholder is left unchanged. |
| Text.Strip | util/common.py:66 | The result neither starts nor ends with a Python whitespace character. It is a contiguous part of the input with only whitespace removed around it. |
| Event.Subscriber.constructor | util/event.py:13-16 | A new subscriber has an empty slot and an unset event. |
| Event.Subscriber.Receive | util/event.py:18-29 | With the event unset it returns None and changes nothing. Otherwise it hands over the stored message exactly once and empties the slot. The event is left set. |
| Event.Subscriber.ClearEvent | util/event.py:19 | Clearing the event keeps the slot. |
| Event.WithoutFilters | util/event.py:44 | The filtered list holds every other subscriber of the list, and only those, never the removed one. |
| Event.WithoutAppend | util/event.py:44 | Filtering preserves order: filtering a concatenation is the concatenation of the filtered parts. |
| Event.WithoutAbsent | util/event.py:44 | Unsubscribing a subscriber that is not registered leaves the list as it is. |
| Event.Publisher.constructor | util/event.py:33-34 | A new publisher has no topics. |
| Event.Publisher.Subscribe | util/event.py:36-39 | The subscriber is appended to the topic's list, which is created when absent. Other topics are unchanged. |
| Event.Publisher.Unsubscribe | util/event.py:41-44 | An unknown topic is left alone. Otherwise every occurrence of the subscriber is removed from that topic only. |
| Event.Publisher.Publish | util/event.py:46-51 | Every subscriber registered on the topic holds the message with its event set. By its frame, nothing else changes. |
| Event.LastPublishWins | util/event.py:46-51 | Of two publishes before a receive, only the second payload is received. |
| Event.SecondReceiveIsNone | util/event.py:24-26 | Without clearing the event, a second receive finds the slot emptied and returns None. |
| Metadata.IsOnlineIff | util/stream_metadata.py:14-16 | A payload is online exactly when it carries no non-null `error` and does carry a non-null `metadata.id`. |
| Metadata.ParseMetadata | util/stream_metadata.py:19-25 | The identity is the top-level `plugin` and the `id`, `author`, `category` and `title` under `metadata`. Each is None when its key is missing or the value above it is not a dictionary. |
| Metadata.SameIdentityIsPyEq | util/stream_metadata.py:92-98 | The deduplication test holds exactly when all five fields are equal under Python's `==`. |
| Metadata.TrueTitleThenOneRecordedOnce | util/stream_metadata.py:92-99 | A payload whose title is `1`, arriving after one whose title is `true` and that agrees on everything else, is not recorded: Python's `True == 1`. |
| Metadata.OnlineHasId | util/stream_metadata.py:14-21 | The identity of an online payload always carries that payload's non-null stream id. |
| Metadata.Step | util/stream_metadata.py:62-113 | A raised probe changes nothing. Otherwise the online flag becomes the payload's status. The lists only ever grow. They grow by exactly one entry (and that payload) when the payload is online and its identity differs from the tail's under Python's `==`. Only the first entry carries a datetime. |
| Metadata.StepPreservesWellFormed | util/stream_metadata.py:78-111 | Each update keeps the two lists in step, keeps each entry equal to its payload's identity, keeps consecutive identities distinct, and keeps the datetime only on the first entry. |
| Metadata.RunPreservesWellFormed | util/stream_metadata.py:57-60 | Any sequence of updates keeps that invariant. |
| Metadata.RunExtends | util/stream_metadata.py:78-111 | Recorded entries are never rewritten or removed: the old lists are prefixes of the new ones. |
| Metadata.RunSameIdentity | util/stream_metadata.py:91-99 | Probes that raise, are offline, or carry an identity equal to the tail's under Python's `==` never grow a non-empty history. |
| Metadata.RepeatedProbeRecordedOnce | util/stream_metadata.py:78-99 | From an empty history, any number of probes returning the same online payload record it exactly once and leave the store online. |
| Metadata.RunOnlineStaysOnline | util/stream_metadata.py:65 | Repeated online probes keep the store online. |
| Metadata.LatestAfterOnline | util/stream_metadata.py:78-117 | After an online probe, the latest entry and the last raw payload both carry an identity equal, under Python's `==`, to that probe's. |
| Metadata.LatestMetadata | util/stream_metadata.py:116-117 | The latest entry, or IndexError on an empty history. |
| Metadata.StreamTypes | util/stream_metadata.py:119-123 | IndexError on an empty history. Otherwise: the keys of the last payload's `streams`; none when the field is missing; AttributeError when it is present but not an object. |
| Metadata.StreamMetadata.constructor | util/stream_metadata.py:28-43 | Starts offline on the class-shared lists, probes once, and is well formed. |
| Metadata.StreamMetadata.SetMetadata | util/stream_metadata.py:62-113 | The in-place update is exactly `Step` of the old state, and it keeps the invariant. |
| Metadata.StreamMetadata.GetLatestMetadata | util/stream_metadata.py:116-117 | Fails exactly when the history is empty, and otherwise returns the last entry. |
| Metadata.StreamMetadata.GetStreamTypes | util/stream_metadata.py:119-123 | Raises IndexError exactly when no payload was recorded. |
| Entrypoint.Remember | entrypoint.py:55 | The new list has at most 10 ids. It ends with the new id, preceded by the most recent old ids it keeps. It stays duplicate-free when the id is new. |
| Entrypoint.RememberKeepsInvariant | entrypoint.py:42-55 | Remembering an unseen id keeps every classification's list bounded by 10 and duplicate-free. |
| Entrypoint.NotificationCache.constructor | entrypoint.py:42 | The cache starts empty. |
| Entrypoint.NotificationCache.SendIfNecessary | entrypoint.py:49-57 | An id already announced for the classification posts nothing and changes nothing. Otherwise the id is remembered for that classification only, and "[clf]message" is posted. |
| Entrypoint.SleepIf1080NotAvailable | entrypoint.py:120-135 | It makes at most three checks. It stops at the first raise, at once when 1080 is not requested, or when 1080 is advertised. Every failed check is followed by one sleep. |
| Entrypoint.DecimalString | entrypoint.py:234 | `str` of an integer: non-empty decimal digits, preceded by "-" exactly when it is negative. |
| Entrypoint.DecimalRoundTrip | entrypoint.py:234 | `str` of the segment length in seconds reads back as the same integer. |
| Entrypoint.NonNegativeRoundTrip | entrypoint.py:234 | The digits of a natural number read back as that number. |
| Entrypoint.PathJoin | entrypoint.py:180-224 | `posixpath.join`: an absolute second part replaces the first. Otherwise exactly one "/" is put between them, unless the first part is empty or already ends in "/". |
| Entrypoint.PathJoinKeepsBoth | entrypoint.py:180 | Joining a relative part keeps all of the first part as a prefix and all of the second as the end. |
| Entrypoint.PathSplit | entrypoint.py:192 | `posixpath.split` never produces more characters than the path holds; PathSplitParts fixes its value. |
| Entrypoint.PathSplitParts | entrypoint.py:192 | The directory is a prefix of the path. The name is the slash-free end, which starts right after the last "/". Only slashes lie between the two parts. A directory with anything besides slashes does not end in one, and a directory of slashes only is kept whole. Together these fix the split uniquely. |
| Entrypoint.AfterLastSlash | entrypoint.py:192 | The split point follows the last "/" and leaves no "/" after it. |
| Entrypoint.RStripSlashes | entrypoint.py:192 | A prefix with no trailing "/" that removes only slashes. |
| Entrypoint.RejoinSplit | entrypoint.py:192-224 | For a path without doubled slashes, splitting into directory and name and joining again gives the path back. |
| Entrypoint.StreamlinkCommand | entrypoint.py:196-204 | `[exe, -m, streamlink, -O, url, stream]`, followed by the extra arguments as one element exactly when they are non-empty. |
| Entrypoint.OutputPath | entrypoint.py:180-224 | The template result joined under `/data` (or replacing it when absolute), then split and rejoined. Without doubled slashes that is the joined path itself. |
| Entrypoint.FfmpegCommand | entrypoint.py:206-243 | 24 arguments: the 15 copy-and-tag arguments, the 8 segment arguments, then the output template, appended in that order. |
| Entrypoint.TagArgs | entrypoint.py:206-222 | Copy the input without re-encoding, move the index to the front, and tag title, artist, genre and date. The title is truncated to 147 bytes. |
| Entrypoint.SegmentArgs | entrypoint.py:230-239 | Segment options numbered from 1 with timestamps reset. The length argument reads back as minutes × 60 seconds. |
| Entrypoint.SegmentTemplate | entrypoint.py:224-242 | For every segment number, ffmpeg expands the output template to the recording path followed by " part", the number and ".ts". |
| Entrypoint.ExpandEscaped | entrypoint.py:226 | Doubling every "%" is undone by ffmpeg's template expansion, whatever follows. |
| Entrypoint.SegmentNames | entrypoint.py:226-242 | Every segment file name is the unescaped path, " part", the segment number and ".ts". |
| Entrypoint.SegmentSuffix | entrypoint.py:240-242 | One segment number expands to " part", its digits and ".ts" after the path. |

## Left out

- Threads:
  - the polling thread that `StreamMetadata.__init__` starts;
  - `set_metadata_loop`, `destroy` and `__del__`;
  - the metadata-export and log threads in `entrypoint.py`.
  `Run` stands for a sequence of `set_metadata` calls in order. Interleavings are not modelled.
- Waiting:
  - the timeout of `Subscriber.receive` is the event flag as it stands when the wait ends;
  - `time.sleep` durations are not modelled; sleeps are counted.
- Processes and the filesystem: `subprocess.Popen`, `os.makedirs`, `chown`, signal handlers, `main_loop` and `download_pipeline`'s retry count are not modelled.
- The Discord webhook: `send_discord_message` is the posted message returned by `SendIfNecessary`, and the HTTP request is not modelled.
- Logging: `util/logger.py` is not part of this model.
- `get_stream_info` and `install_streamlink`: `util/stream.py` is not part of this model. The probe outcome is an input.
- `strftime`: `datetime.now().strftime` in `format_filepath` and `set_metadata` is not modelled. Clock readings are opaque input strings, and `FormatFilepath` stops before `strftime`.
- Json:
  - floats are not modelled; numbers are integers, so Python's `1 == 1.0` has no counterpart in the deduplication test;
  - object key order is lost, so `Metadata.StreamTypes` returns the set of keys rather than an ordered view.
- Lone surrogates: Dafny characters are Unicode scalar values. A string with a lone surrogate, on which Python's `encode` raises, cannot be expressed.
- Common.FormatFilepath: all arguments are strings. Passing `None`, which makes `str.replace` raise, is not modelled.
- Common.TruncateInByteSize: `size` is a natural number. A negative size (Python slicing from the end) is not modelled; the source passes 147 only.
- Metadata.StreamMetadata.constructor: the shared class attributes `stack` and `stack_raw` become the constructor's input lists. Aliasing between instances is not modelled beyond that.
- Entrypoint.FfmpegCommand: the ffmpeg segment-name expansion (`ExpandSegmentName`) is a model of the external tool's `%d`/`%%` template convention, not of code in this repository.
- Entrypoint.OutputPath: paths with doubled slashes are modelled by `PathSplit`/`PathJoin`, but their round trip is proved only without doubled slashes.
