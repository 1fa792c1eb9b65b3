/** The normalisers of domain/scrape_fingerprints.py and the blob behind the payload hash. */
module ScrapeFingerprints {
  import opened Ordering
  import opened Text
  import opened Wrappers

  /** A Python value as found in a scraped item; a dict keeps its keys in insertion order. */
  datatype Value =
    | Null
    | Bool(b: bool)
    | Number(text: string, isZero: bool)
    | Str(s: string)
    | List(items: seq<Value>)
    | Dict(entries: seq<Entry>)

  datatype Entry = Entry(key: string, value: Value)

  /** Library behaviour the normalisers rest on, left open: `str()` of a non-string, `str.lower`,
      the http(s) test on a URL, and URL canonicalisation of normalised text. */
  datatype Library = Library(
    render: Value -> string,
    lower: string -> string,
    isHttpUrl: string -> bool,
    canonicalUrl: string -> string)

  const NOISE_MARKERS: seq<string> := [
    "self.__next_f.push(", "__next_f.push(", "__next_data__", "window.__", "webpack", "<script", "</script"
  ]

  const MAX_IMAGE_URLS := 100

  // ----- text

  /** `normalize_text`, with `""` for `None`. */
  function NormalizeText(lib: Library, v: Value): string {
    match v
    case Null => ""
    case Str(s) => NormalizeString(s)
    case _ => NormalizeString(lib.render(v))
  }

  predicate Contains(s: string, part: string) {
    part <= s || (s != [] && Contains(s[1..], part))
  }

  predicate LooksLikeNoise(lib: Library, text: string) {
    var t := NormalizeString(text);
    t != "" && exists i :: 0 <= i < |NOISE_MARKERS| && Contains(lib.lower(t), NOISE_MARKERS[i])
  }

  /** Text worth keeping: neither empty nor frontend noise. */
  predicate Keeps(lib: Library, text: string) {
    text != "" && !LooksLikeNoise(lib, text)
  }

  lemma NormalizeTextIsClean(lib: Library, v: Value)
    ensures NormalizeText(lib, v) == "" || Clean(NormalizeText(lib, v))
    ensures NormalizeText(lib, Str(NormalizeText(lib, v))) == NormalizeText(lib, v)
  {
    match v
    case Null =>
    case Str(s) => NormalizeStringIsClean(s);
    case _ => NormalizeStringIsClean(lib.render(v));
  }

  // ----- which texts are kept

  predicate OccursAt(s: string, part: string, i: nat) {
    i + |part| <= |s| && s[i..i + |part|] == part
  }

  predicate Occurs(s: string, part: string) {
    exists i: nat | i <= |s| :: OccursAt(s, part, i)
  }

  lemma {:induction false} ContainsMeansOccurs(s: string, part: string)
    ensures Contains(s, part) <==> Occurs(s, part)
  {
    assert part <= s <==> OccursAt(s, part, 0);
    if s != [] {
      ContainsMeansOccurs(s[1..], part);
      forall i: nat | i <= |s[1..]| ensures OccursAt(s[1..], part, i) <==> OccursAt(s, part, i + 1) {
        if i + |part| <= |s[1..]| { assert s[1..][i..i + |part|] == s[i + 1..i + 1 + |part|]; }
      }
      if Occurs(s, part) && !OccursAt(s, part, 0) {
        var i: nat :| i <= |s| && OccursAt(s, part, i);
        assert OccursAt(s[1..], part, i - 1);
      }
      if Occurs(s[1..], part) {
        var i: nat :| i <= |s[1..]| && OccursAt(s[1..], part, i);
        assert OccursAt(s, part, i + 1);
      }
    }
  }

  /** The words of a value's text: a string's own, those of anything else as rendered, and none of `None`. */
  function WordsOf(lib: Library, v: Value): seq<string> {
    if v.Null? then [] else Words(if v.Str? then v.s else lib.render(v))
  }

  lemma NormalizeTextJoinsWords(lib: Library, v: Value)
    ensures NormalizeText(lib, v) == JoinWords(WordsOf(lib, v))
  {
    if !v.Null? { NormalizeStringJoinsWords(if v.Str? then v.s else lib.render(v)); }
  }

  /** Some frontend marker occurs in the lower-cased text. */
  predicate HasMarker(lib: Library, text: string) {
    var t := lib.lower(text);
    || Occurs(t, "self.__next_f.push(") || Occurs(t, "__next_f.push(") || Occurs(t, "__next_data__")
    || Occurs(t, "window.__") || Occurs(t, "webpack") || Occurs(t, "<script") || Occurs(t, "</script")
  }

  lemma NoiseMeans(lib: Library, text: string)
    ensures LooksLikeNoise(lib, text) <==> NormalizeString(text) != "" && HasMarker(lib, NormalizeString(text))
  {
    var t := lib.lower(NormalizeString(text));
    forall i | 0 <= i < |NOISE_MARKERS| ensures Contains(t, NOISE_MARKERS[i]) <==> Occurs(t, NOISE_MARKERS[i]) {
      ContainsMeansOccurs(t, NOISE_MARKERS[i]);
    }
    assert |NOISE_MARKERS| == 7;
    assert HasMarker(lib, NormalizeString(text)) <==> exists i :: 0 <= i < 7 && Contains(t, NOISE_MARKERS[i]) by {
      assert NOISE_MARKERS[0] == "self.__next_f.push(" && NOISE_MARKERS[1] == "__next_f.push(";
      assert NOISE_MARKERS[2] == "__next_data__" && NOISE_MARKERS[3] == "window.__" && NOISE_MARKERS[4] == "webpack";
      assert NOISE_MARKERS[5] == "<script" && NOISE_MARKERS[6] == "</script";
    }
  }

  /** A text is kept exactly when it has words and no marker among them. */
  lemma KeptTextMeans(lib: Library, v: Value)
    ensures var t := JoinWords(WordsOf(lib, v));
            KeptText(lib, v) == if t != "" && !HasMarker(lib, t) then Some(Str(t)) else None
  {
    NormalizeTextJoinsWords(lib, v);
    NormalizeTextIsClean(lib, v);
    var t := NormalizeText(lib, v);
    if t != "" { CleanIsFixed(t); }
    NoiseMeans(lib, t);
  }

  // ----- dicts

  /** `out[k] = v`: an existing key keeps its place, a new one goes last. */
  function Put(out: seq<Entry>, k: string, v: Value): seq<Entry> {
    if out == [] then [Entry(k, v)]
    else if out[0].key == k then [Entry(k, v)] + out[1..]
    else [out[0]] + Put(out[1..], k, v)
  }

  function Lookup(entries: seq<Entry>, k: string): Option<Value> {
    if entries == [] then None
    else if entries[0].key == k then Some(entries[0].value)
    else Lookup(entries[1..], k)
  }

  lemma {:induction false} PutLookup(out: seq<Entry>, k: string, v: Value, x: string)
    ensures Lookup(Put(out, k, v), x) == if x == k then Some(v) else Lookup(out, x)
  {
    if out != [] && out[0].key != k {
      PutLookup(out[1..], k, v, x);
      assert Put(out, k, v)[1..] == Put(out[1..], k, v);
    }
  }

  ghost predicate DistinctKeys(entries: seq<Entry>) {
    forall i, j :: 0 <= i < j < |entries| ==> entries[i].key != entries[j].key
  }

  lemma {:induction false} PutMembers(out: seq<Entry>, k: string, v: Value)
    ensures forall e :: e in Put(out, k, v) ==> e == Entry(k, v) || e in out
    ensures Put(out, k, v) != []
  {
    if out != [] && out[0].key != k { PutMembers(out[1..], k, v); }
  }

  lemma {:induction false} PutDistinct(out: seq<Entry>, k: string, v: Value)
    requires DistinctKeys(out)
    ensures DistinctKeys(Put(out, k, v))
  {
    if out != [] && out[0].key != k {
      var tail := Put(out[1..], k, v);
      PutDistinct(out[1..], k, v);
      PutMembers(out[1..], k, v);
      forall j | 0 <= j < |tail| ensures tail[j].key != out[0].key {
        assert tail[j] in tail;
      }
    }
  }

  lemma {:induction false} PutNew(out: seq<Entry>, k: string, v: Value)
    requires forall i :: 0 <= i < |out| ==> out[i].key != k
    ensures Put(out, k, v) == out + [Entry(k, v)]
  {
    if out != [] { PutNew(out[1..], k, v); }
  }

  lemma PutEntries(out: seq<Entry>, k: string, v: Value)
    requires DistinctKeys(out)
    ensures DistinctKeys(Put(out, k, v))
    ensures forall i :: 0 <= i < |Put(out, k, v)| ==> Put(out, k, v)[i] == Entry(k, v) || Put(out, k, v)[i] in out
  {
    PutDistinct(out, k, v);
    PutMembers(out, k, v);
    forall i | 0 <= i < |Put(out, k, v)| ensures Put(out, k, v)[i] == Entry(k, v) || Put(out, k, v)[i] in out {
      assert Put(out, k, v)[i] in Put(out, k, v);
    }
  }

  // ----- the recursive normaliser

  function NormalizeEntries(lib: Library, entries: seq<Entry>): seq<Entry>
    decreases entries, 0
  {
    if entries == [] then []
    else
      var out := NormalizeEntries(lib, entries[..|entries| - 1]);
      var Entry(key, value) := entries[|entries| - 1];
      var cleanKey := NormalizeString(key);
      if !Keeps(lib, cleanKey) then out
      else
        match NormalizeValue(lib, value)
        case None => out
        case Some(w) => Put(out, cleanKey, w)
  }

  function NormalizeValue(lib: Library, v: Value): Option<Value>
    decreases v, 1
  {
    match v
    case Dict(entries) => NonEmptyDict(NormalizeEntries(lib, entries))
    case List(items) =>
      var kept := NormalizeItems(lib, items);
      if kept == [] then None else Some(List(kept))
    case _ => KeptText(lib, v)
  }

  function NormalizeItems(lib: Library, items: seq<Value>): seq<Value>
    decreases items, 0
  {
    if items == [] then []
    else
      var kept := NormalizeItems(lib, items[..|items| - 1]);
      var item := items[|items| - 1];
      var one := if item.Dict? then NonEmptyDict(NormalizeEntries(lib, item.entries)) else KeptText(lib, item);
      if one.None? then kept else kept + [one.value]
  }

  function NonEmptyDict(entries: seq<Entry>): Option<Value> {
    if entries == [] then None else Some(Dict(entries))
  }

  function KeptText(lib: Library, v: Value): Option<Value> {
    if Keeps(lib, NormalizeText(lib, v)) then Some(Str(NormalizeText(lib, v))) else None
  }

  // ----- normal form

  predicate NormalText(lib: Library, t: string) {
    Clean(t) && !LooksLikeNoise(lib, t)
  }

  ghost predicate NormalEntries(lib: Library, entries: seq<Entry>)
    decreases entries, 0
  {
    DistinctKeys(entries) && forall i :: 0 <= i < |entries| ==>
      NormalText(lib, entries[i].key) && NormalValue(lib, entries[i].value)
  }

  ghost predicate NormalValue(lib: Library, v: Value)
    decreases v, 1
  {
    match v
    case Str(s) => NormalText(lib, s)
    case Dict(entries) => entries != [] && NormalEntries(lib, entries)
    case List(items) => items != [] && forall i :: 0 <= i < |items| ==> !items[i].List? && NormalValue(lib, items[i])
    case _ => false
  }

  lemma KeptTextIsNormal(lib: Library, v: Value)
    ensures KeptText(lib, v).Some? ==> KeptText(lib, v).value.Str? && NormalText(lib, KeptText(lib, v).value.s)
  {
    NormalizeTextIsClean(lib, v);
  }

  /** Whatever comes in, through any nesting, collision or noise, what comes out is in normal form. */
  lemma {:induction false} NormalizeEntriesIsNormal(lib: Library, entries: seq<Entry>)
    ensures NormalEntries(lib, NormalizeEntries(lib, entries))
    decreases entries, 0
  {
    if entries != [] {
      var out := NormalizeEntries(lib, entries[..|entries| - 1]);
      var Entry(key, value) := entries[|entries| - 1];
      var cleanKey := NormalizeString(key);
      NormalizeEntriesIsNormal(lib, entries[..|entries| - 1]);
      NormalizeValueIsNormal(lib, value);
      NormalizeStringIsClean(key);
      if Keeps(lib, cleanKey) && NormalizeValue(lib, value).Some? {
        PutEntries(out, cleanKey, NormalizeValue(lib, value).value);
      }
    }
  }

  lemma {:induction false} NormalizeValueIsNormal(lib: Library, v: Value)
    ensures NormalizeValue(lib, v).Some? ==> NormalValue(lib, NormalizeValue(lib, v).value)
    decreases v, 1
  {
    match v
    case Dict(entries) => NormalizeEntriesIsNormal(lib, entries);
    case List(items) => NormalizeItemsIsNormal(lib, items);
    case _ => KeptTextIsNormal(lib, v);
  }

  lemma {:induction false} NormalizeItemsIsNormal(lib: Library, items: seq<Value>)
    ensures forall i :: 0 <= i < |NormalizeItems(lib, items)| ==>
              !NormalizeItems(lib, items)[i].List? && NormalValue(lib, NormalizeItems(lib, items)[i])
    decreases items, 0
  {
    if items != [] {
      var item := items[|items| - 1];
      NormalizeItemsIsNormal(lib, items[..|items| - 1]);
      if item.Dict? { NormalizeEntriesIsNormal(lib, item.entries); } else { KeptTextIsNormal(lib, item); }
    }
  }

  lemma NormalTextIsFixed(lib: Library, t: string)
    requires NormalText(lib, t)
    ensures NormalizeString(t) == t && Keeps(lib, t) && KeptText(lib, Str(t)) == Some(Str(t))
  {
    CleanIsFixed(t);
  }

  /** Normal form is left alone. */
  lemma {:induction false} NormalEntriesAreFixed(lib: Library, entries: seq<Entry>)
    requires NormalEntries(lib, entries)
    ensures NormalizeEntries(lib, entries) == entries
    decreases entries, 0
  {
    if entries != [] {
      var rest, last := entries[..|entries| - 1], entries[|entries| - 1];
      assert entries == rest + [last];
      assert NormalText(lib, last.key) && NormalValue(lib, last.value);
      assert forall i :: 0 <= i < |rest| ==> rest[i] == entries[i];
      NormalEntriesAreFixed(lib, rest);
      NormalValueIsFixed(lib, last.value);
      NormalTextIsFixed(lib, last.key);
      PutNew(rest, last.key, last.value);
    }
  }

  lemma {:induction false} NormalValueIsFixed(lib: Library, v: Value)
    requires NormalValue(lib, v)
    ensures NormalizeValue(lib, v) == Some(v)
    decreases v, 1
  {
    match v
    case Dict(entries) => NormalEntriesAreFixed(lib, entries);
    case List(items) => NormalItemsAreFixed(lib, items);
    case Str(s) => NormalTextIsFixed(lib, s);
  }

  lemma {:induction false} NormalItemsAreFixed(lib: Library, items: seq<Value>)
    requires forall i :: 0 <= i < |items| ==> !items[i].List? && NormalValue(lib, items[i])
    ensures NormalizeItems(lib, items) == items
    decreases items, 0
  {
    if items != [] {
      var rest, item := items[..|items| - 1], items[|items| - 1];
      assert items == rest + [item];
      assert forall i :: 0 <= i < |rest| ==> rest[i] == items[i];
      assert NormalValue(lib, item);
      NormalItemsAreFixed(lib, rest);
      if item.Dict? { NormalEntriesAreFixed(lib, item.entries); } else { NormalTextIsFixed(lib, item.s); }
    }
  }

  /** A dict is unchanged by normalisation exactly when it is in normal form; normalising twice
      is normalising once. */
  lemma NormalizeIsIdempotent(lib: Library, entries: seq<Entry>)
    ensures NormalizeEntries(lib, entries) == entries <==> NormalEntries(lib, entries)
    ensures NormalizeEntries(lib, NormalizeEntries(lib, entries)) == NormalizeEntries(lib, entries)
  {
    NormalizeEntriesIsNormal(lib, entries);
    NormalEntriesAreFixed(lib, NormalizeEntries(lib, entries));
    if NormalEntries(lib, entries) { NormalEntriesAreFixed(lib, entries); }
  }

  /** The value of the last entry that survives under the clean key `k`. */
  function LastSurvivor(lib: Library, entries: seq<Entry>, k: string): Option<Value> {
    if entries == [] then None
    else
      var Entry(key, value) := entries[|entries| - 1];
      if NormalizeString(key) == k && Keeps(lib, k) && NormalizeValue(lib, value).Some?
      then NormalizeValue(lib, value)
      else LastSurvivor(lib, entries[..|entries| - 1], k)
  }

  /** Colliding keys: the last one whose value survives wins, even over a later one that does not. */
  lemma {:induction false} LastSurvivorWins(lib: Library, entries: seq<Entry>, k: string)
    ensures Lookup(NormalizeEntries(lib, entries), k) == LastSurvivor(lib, entries, k)
  {
    if entries != [] {
      var out := NormalizeEntries(lib, entries[..|entries| - 1]);
      var Entry(key, value) := entries[|entries| - 1];
      LastSurvivorWins(lib, entries[..|entries| - 1], k);
      if NormalizeValue(lib, value).Some? {
        PutLookup(out, NormalizeString(key), NormalizeValue(lib, value).value, k);
      }
    }
  }

  /** The clean key under which an entry is filed: its words, unless there are none or a marker is among them. */
  lemma KeysKept(lib: Library, key: string)
    ensures var k := JoinWords(Words(key));
            NormalizeString(key) == k && (Keeps(lib, k) <==> k != "" && !HasMarker(lib, k))
  {
    NormalizeStringJoinsWords(key);
    NormalizeStringIsClean(key);
    NoiseMeans(lib, NormalizeString(key));
  }

  /** Which values survive: a scalar whose text is kept, a dict in which some entry does, a list of which some item
      does. */
  lemma SurvivesMeans(lib: Library, v: Value)
    ensures !v.Dict? && !v.List? ==> NormalizeValue(lib, v) == KeptText(lib, v)
    ensures v.Dict? ==>
              (NormalizeValue(lib, v).Some? <==> exists k :: LastSurvivor(lib, v.entries, k).Some?)
              && (NormalizeValue(lib, v).Some? ==> NormalizeValue(lib, v).value.Dict?)
    ensures v.List? ==>
              (NormalizeValue(lib, v).Some? <==> exists i :: 0 <= i < |v.items| && ItemSurvives(lib, v.items[i]))
              && (NormalizeValue(lib, v).Some? ==> NormalizeValue(lib, v).value.List?)
  {
    if v.Dict? {
      var out := NormalizeEntries(lib, v.entries);
      if out != [] {
        LastSurvivorWins(lib, v.entries, out[0].key);
        assert LastSurvivor(lib, v.entries, out[0].key).Some?;
      }
      if k :| LastSurvivor(lib, v.entries, k).Some? { LastSurvivorWins(lib, v.entries, k); }
    }
    if v.List? { SomeItemSurvives(lib, v.items); }
  }

  /** What one item of a list becomes: a dict its normal form, anything else its text, a nested list included. */
  function ItemForm(lib: Library, item: Value): Option<Value> {
    if item.Dict? then NormalizeValue(lib, item) else KeptText(lib, item)
  }

  predicate ItemSurvives(lib: Library, item: Value) {
    ItemForm(lib, item).Some?
  }

  function OneItem(lib: Library, item: Value): seq<Value> {
    if ItemSurvives(lib, item) then [ItemForm(lib, item).value] else []
  }

  lemma ItemsSnoc(lib: Library, items: seq<Value>, item: Value)
    ensures NormalizeItems(lib, items + [item]) == NormalizeItems(lib, items) + OneItem(lib, item)
  {
    assert (items + [item])[..|items|] == items;
  }

  /** Items are normalised one by one, in their order. */
  lemma {:induction false} ItemsOneByOne(lib: Library, a: seq<Value>, item: Value, b: seq<Value>)
    ensures NormalizeItems(lib, a + [item] + b) ==
            NormalizeItems(lib, a)
            + (if ItemSurvives(lib, item) then [ItemForm(lib, item).value] else []) + NormalizeItems(lib, b)
  {
    if b == [] {
      assert a + [item] + b == a + [item];
      ItemsSnoc(lib, a, item);
    } else {
      var rest, last := b[..|b| - 1], b[|b| - 1];
      assert a + [item] + b == (a + [item] + rest) + [last] && b == rest + [last];
      ItemsOneByOne(lib, a, item, rest);
      ItemsSnoc(lib, a + [item] + rest, last);
      ItemsSnoc(lib, rest, last);
    }
  }

  lemma {:induction false} SomeItemSurvives(lib: Library, items: seq<Value>)
    ensures NormalizeItems(lib, items) != [] <==> exists i :: 0 <= i < |items| && ItemSurvives(lib, items[i])
  {
    if items != [] {
      var rest, last := items[..|items| - 1], items[|items| - 1];
      SomeItemSurvives(lib, rest);
      assert items == rest + [last] + [];
      ItemsOneByOne(lib, rest, last, []);
      if i :| 0 <= i < |rest| && ItemSurvives(lib, rest[i]) { assert ItemSurvives(lib, items[i]); }
    }
  }

  method NormalizeJsonDict(lib: Library, payload: seq<Entry>) returns (out: seq<Entry>)
    ensures out == NormalizeEntries(lib, payload)
    decreases payload
  {
    out := [];
    for i := 0 to |payload|
      invariant out == NormalizeEntries(lib, payload[..i])
    {
      assert payload[..i + 1][..i] == payload[..i];
      var Entry(key, value) := payload[i];
      var cleanKey := NormalizeString(key);
      if cleanKey == "" || LooksLikeNoise(lib, cleanKey) {
        continue;
      }
      match value
      case Dict(entries) =>
        var nested := NormalizeJsonDict(lib, entries);
        if nested != [] {
          out := Put(out, cleanKey, Dict(nested));
        }
      case List(items) =>
        var normalizedItems := NormalizeJsonList(lib, items);
        if normalizedItems != [] {
          out := Put(out, cleanKey, List(normalizedItems));
        }
      case _ =>
        var text := NormalizeText(lib, value);
        if text != "" && !LooksLikeNoise(lib, text) {
          out := Put(out, cleanKey, Str(text));
        }
    }
    assert payload[..|payload|] == payload;
  }

  /** The inner loop over the items of a list value. */
  method NormalizeJsonList(lib: Library, items: seq<Value>) returns (normalizedItems: seq<Value>)
    ensures normalizedItems == NormalizeItems(lib, items)
    decreases items
  {
    normalizedItems := [];
    for j := 0 to |items|
      invariant normalizedItems == NormalizeItems(lib, items[..j])
    {
      assert items[..j + 1][..j] == items[..j];
      if items[j].Dict? {
        var nested := NormalizeJsonDict(lib, items[j].entries);
        if nested != [] {
          normalizedItems := normalizedItems + [Dict(nested)];
        }
      } else {
        var text := NormalizeText(lib, items[j]);
        if text != "" && !LooksLikeNoise(lib, text) {
          normalizedItems := normalizedItems + [Str(text)];
        }
      }
    }
    assert items[..|items|] == items;
  }

  // ----- image URLs

  predicate ValidUrl(lib: Library, url: string) {
    url != "" && lib.isHttpUrl(url)
  }

  /** The distinct valid URLs in order of first appearance. */
  function DistinctUrls(lib: Library, raws: seq<Value>): seq<string> {
    if raws == [] then []
    else
      var earlier := DistinctUrls(lib, raws[..|raws| - 1]);
      var url := NormalizeText(lib, raws[|raws| - 1]);
      if ValidUrl(lib, url) && url !in earlier then earlier + [url] else earlier
  }

  function FirstUrls(urls: seq<string>): seq<string> {
    if |urls| <= MAX_IMAGE_URLS then urls else urls[..MAX_IMAGE_URLS]
  }

  function ImageUrls(lib: Library, raws: seq<Value>): seq<string> {
    FirstUrls(DistinctUrls(lib, raws))
  }

  lemma {:induction false} DistinctUrlsGrow(lib: Library, raws: seq<Value>, i: nat)
    requires i <= |raws|
    ensures DistinctUrls(lib, raws[..i]) <= DistinctUrls(lib, raws)
  {
    if i == |raws| {
      assert raws[..i] == raws;
    } else {
      DistinctUrlsGrow(lib, raws[..|raws| - 1], i);
      assert raws[..|raws| - 1][..i] == raws[..i];
    }
  }

  /** The loop stops early at the limit, and still returns the first hundred of the whole list. */
  method NormalizeImageUrls(lib: Library, raws: seq<Value>) returns (unique: seq<string>)
    ensures unique == ImageUrls(lib, raws)
  {
    unique := [];
    var seen: set<string> := {};
    for i := 0 to |raws|
      invariant unique == DistinctUrls(lib, raws[..i]) && |unique| < MAX_IMAGE_URLS
      invariant forall u :: u in seen <==> u in unique
    {
      assert raws[..i + 1][..i] == raws[..i];
      var normalized := NormalizeText(lib, raws[i]);
      if normalized == "" || !lib.isHttpUrl(normalized) || normalized in seen {
        continue;
      }
      seen := seen + {normalized};
      unique := unique + [normalized];
      if |unique| >= MAX_IMAGE_URLS {
        DistinctUrlsGrow(lib, raws, i + 1);
        return;
      }
    }
    assert raws[..|raws|] == raws;
  }

  /** What the list holds: each valid normalised URL once. */
  lemma {:induction false} DistinctUrlsMembers(lib: Library, raws: seq<Value>)
    ensures NoDuplicates(DistinctUrls(lib, raws))
    ensures forall u :: u in DistinctUrls(lib, raws) <==>
              ValidUrl(lib, u) && exists r :: r in raws && NormalizeText(lib, r) == u
  {
    if raws != [] {
      var rest, last := raws[..|raws| - 1], raws[|raws| - 1];
      DistinctUrlsMembers(lib, rest);
      assert raws == rest + [last];
      assert last in raws;
    }
  }

  function AsValues(urls: seq<string>): seq<Value> {
    seq(|urls|, i requires 0 <= i < |urls| => Str(urls[i]))
  }

  ghost predicate NormalUrls(lib: Library, urls: seq<string>) {
    NoDuplicates(urls) && forall i :: 0 <= i < |urls| ==> Clean(urls[i]) && lib.isHttpUrl(urls[i])
  }

  lemma ImageUrlsAreNormal(lib: Library, raws: seq<Value>)
    ensures NormalUrls(lib, ImageUrls(lib, raws)) && |ImageUrls(lib, raws)| <= MAX_IMAGE_URLS
  {
    DistinctUrlsMembers(lib, raws);
    var urls := DistinctUrls(lib, raws);
    forall i | 0 <= i < |urls| ensures Clean(urls[i]) && lib.isHttpUrl(urls[i]) {
      assert urls[i] in urls;
      var r :| r in raws && NormalizeText(lib, r) == urls[i];
      NormalizeTextIsClean(lib, r);
    }
  }

  lemma {:induction false} NormalUrlsAreFixed(lib: Library, urls: seq<string>)
    requires NormalUrls(lib, urls)
    ensures DistinctUrls(lib, AsValues(urls)) == urls
  {
    if urls != [] {
      var rest, last := urls[..|urls| - 1], urls[|urls| - 1];
      NormalUrlsAreFixed(lib, rest);
      CleanIsFixed(last);
      assert AsValues(urls)[..|urls| - 1] == AsValues(rest);
      assert urls == rest + [last];
    }
  }

  /** Storing the URLs and normalising them again changes nothing. */
  lemma ImageUrlsIdempotent(lib: Library, raws: seq<Value>)
    ensures ImageUrls(lib, AsValues(ImageUrls(lib, raws))) == ImageUrls(lib, raws)
  {
    ImageUrlsAreNormal(lib, raws);
    NormalUrlsAreFixed(lib, ImageUrls(lib, raws));
  }

  /** The sorted URLs of the blob. */
  function SortedUrls(lib: Library, raws: seq<Value>): seq<string> {
    Sort(ImageUrls(lib, raws), StringLe)
  }

  ghost predicate SameUrls(lib: Library, a: seq<Value>, b: seq<Value>) {
    forall u :: u in DistinctUrls(lib, a) <==> u in DistinctUrls(lib, b)
  }

  /** Reordering or repeating images leaves the blob alone as long as the limit is not passed:
      up to a hundred distinct valid URLs, the sorted lists agree exactly when the sets do. */
  lemma SortedUrlsDependOnSet(lib: Library, a: seq<Value>, b: seq<Value>)
    requires |DistinctUrls(lib, a)| <= MAX_IMAGE_URLS && |DistinctUrls(lib, b)| <= MAX_IMAGE_URLS
    ensures SortedUrls(lib, a) == SortedUrls(lib, b) <==> SameUrls(lib, a, b)
  {
    SortedUrlsExactly(lib, a, b);
  }

  /** The same URLs are kept. */
  ghost predicate SameKept(lib: Library, a: seq<Value>, b: seq<Value>) {
    forall u :: u in ImageUrls(lib, a) <==> u in ImageUrls(lib, b)
  }

  /** With or without the limit, the sorted lists agree exactly when the same URLs are kept. */
  lemma SortedUrlsExactly(lib: Library, a: seq<Value>, b: seq<Value>)
    ensures SortedUrls(lib, a) == SortedUrls(lib, b) <==> SameKept(lib, a, b)
  {
    SortedUrlsMembers(lib, a);
    SortedUrlsMembers(lib, b);
    if SameKept(lib, a, b) { SortedSetUnique(SortedUrls(lib, a), SortedUrls(lib, b)); }
  }

  lemma SortedUrlsMembers(lib: Library, a: seq<Value>)
    ensures NoDuplicates(SortedUrls(lib, a)) && SortedBy(SortedUrls(lib, a), StringLe)
    ensures forall u :: u in SortedUrls(lib, a) <==> u in ImageUrls(lib, a)
  {
    DistinctUrlsMembers(lib, a);
    StringLeIsTotalOrder();
    SortContents(ImageUrls(lib, a), StringLe);
    SortSorted(ImageUrls(lib, a), StringLe);
    MultisetNoDuplicates(ImageUrls(lib, a), SortedUrls(lib, a));
    SameElements(ImageUrls(lib, a), SortedUrls(lib, a));
  }

  // ----- the limit is exact

  lemma SameUrlsSameCount(lib: Library, a: seq<Value>, b: seq<Value>)
    requires SameUrls(lib, a, b)
    ensures |DistinctUrls(lib, a)| == |DistinctUrls(lib, b)|
  {
    var x, y := DistinctUrls(lib, a), DistinctUrls(lib, b);
    DistinctUrlsMembers(lib, a);
    DistinctUrlsMembers(lib, b);
    NoDuplicatesLength(x);
    NoDuplicatesLength(y);
    assert (set u | u in x) == (set u | u in y);
  }

  /** One URL too many, moved to the front, pushes another one out. */
  lemma OrderMattersAboveLimit(lib: Library, urls: seq<string>, u: string)
    requires NormalUrls(lib, urls + [u]) && |urls| >= MAX_IMAGE_URLS
    ensures SameUrls(lib, AsValues(urls + [u]), AsValues([u] + urls))
    ensures SortedUrls(lib, AsValues(urls + [u])) != SortedUrls(lib, AsValues([u] + urls))
  {
    MovedIsNormal(lib, urls, u);
    NormalUrlsAreFixed(lib, urls + [u]);
    NormalUrlsAreFixed(lib, [u] + urls);
    var kept, moved := FirstUrls(urls + [u]), FirstUrls([u] + urls);
    assert kept == urls[..MAX_IMAGE_URLS] && moved[0] == u;
    NotAmong(urls, u);
    assert u in moved && u !in kept;
    SortContents(kept, StringLe);
    SortContents(moved, StringLe);
    SameElements(Sort(kept, StringLe), kept);
    SameElements(Sort(moved, StringLe), moved);
  }

  lemma NotAmong(urls: seq<string>, u: string)
    requires NoDuplicates(urls + [u])
    ensures u !in urls
  {
    forall i | 0 <= i < |urls| ensures urls[i] != u { assert (urls + [u])[i] != (urls + [u])[|urls|]; }
  }

  lemma MovedIsNormal(lib: Library, urls: seq<string>, u: string)
    requires NormalUrls(lib, urls + [u])
    ensures NormalUrls(lib, [u] + urls)
  {
    NotAmong(urls, u);
    assert Clean((urls + [u])[|urls|]) && lib.isHttpUrl((urls + [u])[|urls|]);
    forall i | 0 <= i < |urls| ensures Clean(urls[i]) && lib.isHttpUrl(urls[i]) { assert (urls + [u])[i] == urls[i]; }
    forall i, j | 0 <= i < j < |urls| ensures urls[i] != urls[j] { assert (urls + [u])[i] != (urls + [u])[j]; }
  }

  /** A library that takes every text for a URL. */
  function OpenLibrary(): Library {
    Library(v => "", s => s, s => true, s => s)
  }

  function Tally(n: nat): string {
    seq(n, i => 'a')
  }

  function Tallies(n: nat): seq<string> {
    seq(n, i requires 0 <= i < n => Tally(i + 1))
  }

  lemma TalliesAreNormal(n: nat)
    ensures NormalUrls(OpenLibrary(), Tallies(n))
  {
    forall i | 0 <= i < n ensures Clean(Tallies(n)[i]) && |Tallies(n)[i]| == i + 1 {
      var t := Tallies(n)[i];
      forall j | 0 <= j < |t| ensures SpacedAt(t, j) { assert t[j] == 'a'; }
    }
  }

  ghost predicate OrderIsIrrelevant(lib: Library, n: nat, a: seq<Value>, b: seq<Value>) {
    |DistinctUrls(lib, a)| <= n && SameUrls(lib, a, b) ==> SortedUrls(lib, a) == SortedUrls(lib, b)
  }

  /** Reordering and repeating up to `n` distinct images never matters exactly when `n` is at most a hundred. */
  lemma LimitIsExact(n: nat)
    ensures n <= 100 <==>
              forall lib: Library, a: seq<Value>, b: seq<Value> :: OrderIsIrrelevant(lib, n, a, b)
  {
    if n <= MAX_IMAGE_URLS {
      forall lib: Library, a: seq<Value>, b: seq<Value> ensures OrderIsIrrelevant(lib, n, a, b) {
        if |DistinctUrls(lib, a)| <= n && SameUrls(lib, a, b) {
          SameUrlsSameCount(lib, a, b);
          SortedUrlsDependOnSet(lib, a, b);
        }
      }
    } else {
      var lib, urls, u := OpenLibrary(), Tallies(n - 1), Tally(n);
      assert urls + [u] == Tallies(n);
      TalliesAreNormal(n);
      NormalUrlsAreFixed(lib, urls + [u]);
      OrderMattersAboveLimit(lib, urls, u);
      assert !OrderIsIrrelevant(lib, n, AsValues(urls + [u]), AsValues([u] + urls));
    }
  }

  // ----- external ids

  /** `normalize_external_ids`; values are strings. */
  function ExternalIds(lib: Library, payload: seq<Entry>): seq<Entry> {
    if payload == [] then []
    else
      var out := ExternalIds(lib, payload[..|payload| - 1]);
      var Entry(key, value) := payload[|payload| - 1];
      var cleanKey, cleanValue := NormalizeString(key), NormalizeText(lib, value);
      if cleanKey == "" || cleanValue == "" then out else Put(out, cleanKey, Str(cleanValue))
  }

  method NormalizeExternalIds(lib: Library, payload: seq<Entry>) returns (normalized: seq<Entry>)
    ensures normalized == ExternalIds(lib, payload)
  {
    normalized := [];
    for i := 0 to |payload|
      invariant normalized == ExternalIds(lib, payload[..i])
    {
      assert payload[..i + 1][..i] == payload[..i];
      var cleanKey := NormalizeString(payload[i].key);
      var cleanValue := NormalizeText(lib, payload[i].value);
      if cleanKey == "" || cleanValue == "" {
        continue;
      }
      normalized := Put(normalized, cleanKey, Str(cleanValue));
    }
    assert payload[..|payload|] == payload;
  }

  ghost predicate NormalIds(ids: seq<Entry>) {
    DistinctKeys(ids) && forall i :: 0 <= i < |ids| ==> Clean(ids[i].key) && ids[i].value.Str? && Clean(ids[i].value.s)
  }

  lemma {:induction false} ExternalIdsAreNormal(lib: Library, payload: seq<Entry>)
    ensures NormalIds(ExternalIds(lib, payload))
  {
    if payload != [] {
      var out := ExternalIds(lib, payload[..|payload| - 1]);
      var Entry(key, value) := payload[|payload| - 1];
      ExternalIdsAreNormal(lib, payload[..|payload| - 1]);
      NormalizeStringIsClean(key);
      NormalizeTextIsClean(lib, value);
      PutEntries(out, NormalizeString(key), Str(NormalizeText(lib, value)));
    }
  }

  /** The last usable value under the clean id name `k`. */
  function LastId(lib: Library, payload: seq<Entry>, k: string): Option<string> {
    if payload == [] then None
    else
      var Entry(key, value) := payload[|payload| - 1];
      if k != "" && NormalizeString(key) == k && NormalizeText(lib, value) != "" then Some(NormalizeText(lib, value))
      else LastId(lib, payload[..|payload| - 1], k)
  }

  /** Of ids whose names collide, the last usable one is kept. */
  lemma {:induction false} LastIdWins(lib: Library, payload: seq<Entry>, k: string)
    ensures Lookup(ExternalIds(lib, payload), k) ==
            if LastId(lib, payload, k).Some? then Some(Str(LastId(lib, payload, k).value)) else None
  {
    if payload != [] {
      var out := ExternalIds(lib, payload[..|payload| - 1]);
      var Entry(key, value) := payload[|payload| - 1];
      LastIdWins(lib, payload[..|payload| - 1], k);
      PutLookup(out, NormalizeString(key), Str(NormalizeText(lib, value)), k);
    }
  }

  lemma {:induction false} NormalIdsAreFixed(lib: Library, ids: seq<Entry>)
    requires NormalIds(ids)
    ensures ExternalIds(lib, ids) == ids
  {
    if ids != [] {
      var rest, last := ids[..|ids| - 1], ids[|ids| - 1];
      assert ids == rest + [last];
      assert forall i :: 0 <= i < |rest| ==> rest[i] == ids[i];
      NormalIdsAreFixed(lib, rest);
      CleanIsFixed(last.key);
      CleanIsFixed(last.value.s);
      PutNew(rest, last.key, last.value);
    }
  }
}
