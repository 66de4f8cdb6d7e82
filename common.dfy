/**
 * The helpers of util/common.py: `safe_get` (a path lookup that never raises),
 * `truncate_string_in_byte_size` (shortening to a UTF-8 byte budget) and
 * `format_filepath` (placeholder substitution up to, not including, `strftime`).
 */
module Common {
  import opened Wrappers
  import opened Json
  import opened Utf8
  import opened Text

  // ---------------------------------------------------------------- safe_get

  /** Python's `n`-element index `i` (negative counts from the end), or None where Python raises IndexError. */
  function NormalIndex(n: nat, i: int): (r: Option<nat>)
    ensures r.Some? ==> r.value < n && (r.value == i || r.value == i + n)
    ensures r.None? <==> !(-(n as int) <= i < n)
  {
    if 0 <= i < n then Some(i) else if -(n as int) <= i < 0 then Some(i + n) else None
  }

  /**
   * One step `value[key]`: None wherever Python raises (a missing dictionary
   * key, an index out of range, a key of the wrong type, a scalar or None).
   */
  function Subscript(data: Json, key: Key): (r: Option<Json>)
    ensures data.JObject? && key.KStr? ==> (r.Some? <==> key.name in data.fields)
    ensures data.JObject? && key.KStr? && key.name in data.fields ==> r == Some(data.fields[key.name])
    ensures data.JList? && key.KIndex? ==> (r.Some? <==> -|data.items| <= key.index < |data.items|)
    ensures data.JStr? && key.KIndex? ==> (r.Some? <==> -|data.s| <= key.index < |data.s|)
    ensures data.JList? && key.KIndex? && NormalIndex(|data.items|, key.index).Some? ==>
              r == Some(data.items[NormalIndex(|data.items|, key.index).value])
    ensures data.JStr? && key.KIndex? && NormalIndex(|data.s|, key.index).Some? ==>
              r == Some(JStr([data.s[NormalIndex(|data.s|, key.index).value]]))
    ensures data.JStr? && r.Some? ==> r.value.JStr? && |r.value.s| == 1
    ensures !(data.JObject? && key.KStr?) && !(data.JList? && key.KIndex?) && !(data.JStr? && key.KIndex?) ==> r == None
  {
    match (data, key)
    case (JObject(m), KStr(k)) => if k in m then Some(m[k]) else None
    case (JList(xs), KIndex(i)) =>
      (match NormalIndex(|xs|, i) case Some(j) => Some(xs[j]) case None => None)
    case (JStr(t), KIndex(i)) =>
      (match NormalIndex(|t|, i) case Some(j) => Some(JStr([t[j]])) case None => None)
    case _ => None
  }

  /** Following a whole path of keys: None as soon as one step fails. */
  function Walk(data: Json, keys: seq<Key>): Option<Json>
    decreases |keys|
  {
    if keys == [] then Some(data)
    else match Subscript(data, keys[0])
      case None => None
      case Some(v) => Walk(v, keys[1..])
  }

  /** What `safe_get(data, keys, default)` returns for a list of keys. */
  function Lookup(data: Json, keys: seq<Key>, default: Json): Json
  {
    match Walk(data, keys)
    case Some(v) => v
    case None => default
  }

  /** The key argument of `safe_get`: a list of keys, or one bare key. */
  datatype KeyArg = Path(keys: seq<Key>) | Single(key: Key)

  /** The keys a key argument stands for: a bare key is the one-element path. */
  function KeysOf(arg: KeyArg): seq<Key>
  {
    match arg
    case Path(keys) => keys
    case Single(key) => [key]
  }

  /**
   * `safe_get`: a bare key is retried as the one-element list; the loop
   * subscripts step by step, and any failure returns `default`.
   */
  method SafeGet(data: Json, arg: KeyArg, default: Json) returns (r: Json)
    ensures r == Lookup(data, KeysOf(arg), default)
    ensures arg.Single? ==> r == Lookup(data, [arg.key], default)
    decreases if arg.Single? then 1 else 0
  {
    if arg.Single? {
      r := SafeGet(data, Path([arg.key]), default);
      return;
    }
    var keys := arg.keys;
    var result := data;
    var i := 0;
    while i < |keys|
      invariant 0 <= i <= |keys|
      invariant Walk(data, keys[..i]) == Some(result)
    {
      var next := Subscript(result, keys[i]);
      WalkSnoc(data, keys[..i], keys[i]);
      assert keys[..i + 1] == keys[..i] + [keys[i]];
      if next.None? {
        WalkFailed(data, keys[..i + 1], keys[i + 1..]);
        assert keys[..i + 1] + keys[i + 1..] == keys;
        return default;
      }
      result := next.value;
      i := i + 1;
    }
    assert keys[..i] == keys;
    r := result;
  }

  /** Walking a path followed by a second path is walking the first, then the second from where it ended. */
  lemma {:induction false} WalkAppend(data: Json, p: seq<Key>, q: seq<Key>)
    ensures Walk(data, p + q) == match Walk(data, p) case None => None case Some(v) => Walk(v, q)
    decreases |p|
  {
    if p == [] {
      assert p + q == q;
    } else {
      assert (p + q)[0] == p[0] && (p + q)[1..] == p[1..] + q;
      match Subscript(data, p[0])
      case None =>
      case Some(v) => WalkAppend(v, p[1..], q);
    }
  }

  /** One more key: the walk of the longer path is one subscript of the shorter walk's value. */
  lemma WalkSnoc(data: Json, p: seq<Key>, k: Key)
    ensures Walk(data, p + [k]) == match Walk(data, p) case None => None case Some(v) => Subscript(v, k)
  {
    WalkAppend(data, p, [k]);
  }

  /** Once a prefix of the path fails, the whole path fails. */
  lemma WalkFailed(data: Json, p: seq<Key>, q: seq<Key>)
    requires Walk(data, p) == None
    ensures Walk(data, p + q) == None
  {
    WalkAppend(data, p, q);
  }

  /** An empty path returns the data itself. */
  lemma LookupEmptyPath(data: Json, default: Json)
    ensures Lookup(data, [], default) == data
  {
  }

  /** A failure at any step gives `default`, whatever keys follow it. */
  lemma LookupFailsAtStep(data: Json, p: seq<Key>, k: Key, rest: seq<Key>, default: Json)
    requires Walk(data, p).Some? && Subscript(Walk(data, p).value, k) == None
    ensures Lookup(data, p + [k] + rest, default) == default
  {
    WalkSnoc(data, p, k);
    WalkFailed(data, p + [k], rest);
  }

  /** A missing dictionary key, or any key into a scalar or None, gives `default`. */
  lemma LookupMissing(data: Json, name: string, rest: seq<Key>, default: Json)
    requires !(data.JObject? && name in data.fields)
    ensures Lookup(data, [KStr(name)] + rest, default) == default
  {
    assert ([KStr(name)] + rest)[0] == KStr(name);
  }

  // ----------------------------------------------- truncate_string_in_byte_size

  /**
   * `truncate_string_in_byte_size(s, size)`: when the UTF-8 encoding of `s`
   * is longer than `size`, cut the encoding after `size` bytes, decode it
   * dropping the broken last code point, strip whitespace and append "...".
   * The cut keeps exactly the longest whole-code-point prefix that fits.
   */
  function TruncateInByteSize(s: string, size: nat): (r: string)
    ensures |Encode(s)| <= size ==> r == s
    ensures |Encode(s)| > size ==> r == Strip(s[..FitLen(s, size)]) + "..."
  {
    if |Encode(s)| > size then
      DecodeTruncated(s, size);
      Strip(Decode(Encode(s)[..size])) + "..."
    else
      s
  }

  /**
   * A string that does not fit comes back ending in "...", and what precedes
   * the "..." encodes to at most `size` bytes.
   */
  lemma TruncatedFits(s: string, size: nat)
    requires |Encode(s)| > size
    ensures |TruncateInByteSize(s, size)| >= 3
    ensures TruncateInByteSize(s, size)[|TruncateInByteSize(s, size)| - 3..] == "..."
    ensures |Encode(TruncateInByteSize(s, size)[..|TruncateInByteSize(s, size)| - 3])| <= size
  {
    var r := TruncateInByteSize(s, size);
    var prefix := s[..FitLen(s, size)];
    var body := Strip(prefix);
    assert r == body + "...";
    assert r[..|r| - 3] == body;
    StripEncodesShorter(prefix);
    FitLenLongest(s, size);
  }

  /** Stripping never lengthens the encoding. */
  lemma StripEncodesShorter(t: string)
    ensures |Encode(Strip(t))| <= |Encode(t)|
  {
    var body := Strip(t);
    var i: nat :| StrippedAt(t, body, i);
    var j := i + |body|;
    assert body == t[i..j];
    EncodeSliceLen(t, i, j);
  }

  // ------------------------------------------------------------ format_filepath

  /** The byte bound on one `/`-separated path segment (256 - 32). */
  const SegmentByteLimit := 224
  /** The byte budget the title is truncated to when a segment is too long. */
  const TitleByteLimit := 147

  /** The template with `{plugin}`, `{id}`, `{author}` and `{category}` replaced, in that order. */
  function FillFields(template: string, plugin: string, id: string, author: string, category: string): string
  {
    var p := Replace(template, "{plugin}", plugin);
    var q := Replace(p, "{id}", id);
    var r := Replace(q, "{author}", author);
    Replace(r, "{category}", category)
  }

  /** Some `/`-separated segment of `path` encodes to more than the segment bound. */
  predicate HasLongSegment(path: string) {
    exists seg :: seg in Split(path, "/") && |Encode(seg)| > SegmentByteLimit
  }

  /**
   * `format_filepath` up to `strftime`: the fields are substituted first; the
   * title goes in unmodified unless the path with the full title has a
   * segment longer than the bound, in which case the title truncated to its
   * byte budget goes in instead.
   */
  method FormatFilepath(template: string, plugin: string, id: string, author: string,
                        category: string, title: string) returns (filepath: string)
    ensures var base := FillFields(template, plugin, id, author, category);
            !HasLongSegment(Replace(base, "{title}", title)) ==> filepath == Replace(base, "{title}", title)
    ensures var base := FillFields(template, plugin, id, author, category);
            HasLongSegment(Replace(base, "{title}", title)) ==>
              filepath == Replace(base, "{title}", TruncateInByteSize(title, TitleByteLimit))
  {
    filepath := template;
    filepath := Replace(filepath, "{plugin}", plugin);
    filepath := Replace(filepath, "{id}", id);
    filepath := Replace(filepath, "{author}", author);
    filepath := Replace(filepath, "{category}", category);

    var doTruncateTitle := false;
    var fullTitleFilepath := Replace(filepath, "{title}", title);
    var segments := Split(fullTitleFilepath, "/");
    var i := 0;
    while i < |segments|
      invariant 0 <= i <= |segments|
      invariant !doTruncateTitle
      invariant forall j :: 0 <= j < i ==> |Encode(segments[j])| <= SegmentByteLimit
    {
      if |Encode(segments[i])| > SegmentByteLimit {
        doTruncateTitle := true;
        break;
      }
      i := i + 1;
    }
    if doTruncateTitle {
      var truncatedTitle := TruncateInByteSize(title, TitleByteLimit);
      filepath := Replace(filepath, "{title}", truncatedTitle);
    } else {
      filepath := Replace(filepath, "{title}", title);
    }
  }
}
