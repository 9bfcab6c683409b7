/** Audio, video and image plans: per-index items, their shard fragments, and the assembled manifest. */
module Media {
  import opened Sequences
  import opened Ordering
  import opened Strings
  import opened Arithmetic
  import opened GraphModels
  import opened Shards
  import opened Protocol

  const SEED_STRIDE := 1000003

  /** `[item(start), ..., item(start + count - 1)]`. */
  function Range<T>(item: nat -> T, start: nat, count: nat): (r: seq<T>)
    ensures |r| == count
    ensures forall i :: 0 <= i < count ==> r[i] == item(start + i)
  {
    seq(count, i requires 0 <= i < count => item(start + i))
  }

  /** The items of the first `k` shards, in shard order. */
  function Sharded<T>(item: nat -> T, shards: seq<(nat, nat)>, k: nat): seq<T>
    requires k <= |shards|
  {
    if k == 0 then [] else Sharded(item, shards, k - 1) + Range(item, shards[k - 1].0, shards[k - 1].1)
  }

  lemma {:induction false} TilesJoin<T>(item: nat -> T, shards: seq<(nat, nat)>, total: nat, rows: nat, k: nat)
    requires Tiles(shards, 0, total, rows) && 0 < k <= |shards|
    ensures Sharded(item, shards, k) == Range(item, 0, shards[k - 1].0 + shards[k - 1].1)
  {
    if k > 1 {
      TilesJoin(item, shards, total, rows, k - 1);
      assert shards[k - 2 + 1].0 == shards[k - 2].0 + rows;
    }
  }

  function Rows(target: int): nat { if target < 0 then 0 else target }

  /** Whatever the shard size, the shards hold items `0..N-1` exactly once, in order. */
  lemma ShardingInvisible<T>(item: nat -> T, target: int, rows: nat)
    requires rows > 0
    ensures Sharded(item, Plan(target, rows), |Plan(target, rows)|) == Range(item, 0, Rows(target))
  {
    var shards := Plan(target, rows);
    if target > 0 {
      PlanTiles(target, rows);
      TilesJoin(item, shards, target, rows, |shards|);
    } else {
      assert Sharded(item, shards, 0) == [];
      assert Range(item, 0, 0) == [];
    }
  }

  lemma AlreadySorted<T(!new)>(item: nat -> T, indexOf: T -> int, count: nat)
    requires forall i: nat :: indexOf(item(i)) == i
    ensures SortBy(Range(item, 0, count), indexOf, IntLe) == Range(item, 0, count)
  {
    SortOfSorted(Range(item, 0, count), indexOf, IntLe);
  }

  /** The manifest fragments of one job in the object store. */
  class FragmentStore<T> {
    var objects: map<string, seq<T>>

    constructor ()
      ensures objects == map[]
    {
      objects := map[];
    }

    /** The first shards' fragments, each under the key of its shard number. */
    ghost predicate Holds(c: Config, shards: seq<(nat, nat)>, item: nat -> T, keys: seq<string>)
      reads this
    {
      && |keys| <= |shards|
      && forall i :: 0 <= i < |keys| ==>
           && keys[i] == c.ShardKey(i) && keys[i] in objects
           && objects[keys[i]] == Range(item, shards[i].0, shards[i].1)
    }

    /** Uploads the next shard's fragment. */
    method Put(c: Config, ghost shards: seq<(nat, nat)>, ghost item: nat -> T, keys: seq<string>, fragment: seq<T>)
      returns (keys': seq<string>)
      requires Holds(c, shards, item, keys) && |keys| < |shards|
      requires fragment == Range(item, shards[|keys|].0, shards[|keys|].1)
      modifies this
      ensures keys' == keys + [c.ShardKey(|keys|)] && Holds(c, shards, item, keys')
      ensures objects == old(objects)[c.ShardKey(|keys|) := fragment]
    {
      hide Config.ShardKey;
      var i := |keys|;
      forall j | 0 <= j < i ensures c.ShardKey(i) != keys[j] { KeysDistinct(c, i, j); }
      objects := objects[c.ShardKey(i) := fragment];
      keys' := keys + [c.ShardKey(i)];
    }

    /** Reads the fragments in key order and sorts by index; a missing fragment is an error. */
    method Assemble(keys: seq<string>, indexOf: T -> int) returns (items: Option<seq<T>>)
      ensures items.None? <==> exists k :: k in keys && k !in objects
      ensures items.Some? ==> items.value == SortBy(Fetched(objects, keys, |keys|), indexOf, IntLe)
    {
      var fetched: seq<T> := [];
      for i := 0 to |keys|
        invariant forall j :: 0 <= j < i ==> keys[j] in objects
        invariant fetched == Fetched(objects, keys, i)
      {
        if keys[i] !in objects {
          return None;
        }
        fetched := fetched + objects[keys[i]];
      }
      return Some(SortBy(fetched, indexOf, IntLe));
    }
  }

  function Fetched<T>(objects: map<string, seq<T>>, keys: seq<string>, k: nat): seq<T>
    requires k <= |keys| && forall j :: 0 <= j < k ==> keys[j] in objects
  {
    if k == 0 then [] else Fetched(objects, keys, k - 1) + objects[keys[k - 1]]
  }

  lemma {:induction false} FetchedIsSharded<T>(objects: map<string, seq<T>>, keys: seq<string>, item: nat -> T,
                                              shards: seq<(nat, nat)>, k: nat)
    requires |keys| == |shards| && k <= |keys|
    requires forall i :: 0 <= i < |keys| ==>
               keys[i] in objects && objects[keys[i]] == Range(item, shards[i].0, shards[i].1)
    ensures Fetched(objects, keys, k) == Sharded(item, shards, k)
  {
    if k > 0 {
      FetchedIsSharded(objects, keys, item, shards, k - 1);
    }
  }

  /** Once every planned shard is stored, the manifest is the unsharded list: the final sort changes nothing. */
  method Manifest<T(!new)>(c: Config, store: FragmentStore<T>, ghost item: nat -> T, keys: seq<string>,
                    indexOf: T -> int)
    returns (items: seq<T>)
    requires |keys| == |c.Shards()| && store.Holds(c, c.Shards(), item, keys)
    requires forall i: nat :: indexOf(item(i)) == i
    ensures items == Range(item, 0, Rows(c.targetRows))
  {
    hide Config.ShardKey;
    var assembled := store.Assemble(keys, indexOf);
    FetchedIsSharded(store.objects, keys, item, c.Shards(), |keys|);
    ShardingInvisible(item, c.targetRows, c.handler.ShardRows());
    AlreadySorted(item, indexOf, Rows(c.targetRows));
    items := assembled.value;
  }

  // Specs

  datatype Entry = Entry(key: string, value: Value)

  datatype Field = Field(categorical: bool, constraints: Properties)

  /** A dataset description; `directives` lists a dictionary in insertion order. */
  datatype Spec = Spec(description: string, fields: seq<Field>, directives: seq<Entry>)

  function EntryKey(e: Entry): string { e.key }

  function Directive(spec: Spec, key: string): Value {
    var found := FirstNamed(spec.directives, EntryKey, key);
    if found.Some? then found.value.value else Null
  }

  /** The first entry of a key counts; a key that is missing reads as null. */
  lemma {:induction false} DirectiveFirst(spec: Spec, key: string, i: nat)
    requires i < |spec.directives| && spec.directives[i].key == key
    requires forall j :: 0 <= j < i ==> spec.directives[j].key != key
    ensures Directive(spec, key) == spec.directives[i].value
  {
    hide FirstNamed;
    FirstNamedFinds(spec.directives, EntryKey, key);
    assert EntryKey(spec.directives[i]) == key;
    var h := FirstNamedAt(spec.directives, EntryKey, key);
    assert EntryKey(spec.directives[h]) == spec.directives[h].key;
  }

  lemma DirectiveMissing(spec: Spec, key: string)
    requires forall e :: e in spec.directives ==> e.key != key
    ensures Directive(spec, key) == Null
  {
    hide FirstNamed;
    FirstNamedFinds(spec.directives, EntryKey, key);
  }

  function ListOf(v: Value): Option<seq<Value>> {
    if v.List? then Some(v.items) else None
  }

  function TextOf(v: Value): Option<string> {
    if v.Str? then Some(v.s) else None
  }

  // Audio

  datatype AudioRequest = AudioRequest(text: string, voice: Option<string>, language: Option<string>)

  datatype AudioPlan = AudioPlan(index: nat, request: AudioRequest, classLabel: Option<string>)

  datatype AudioResult = AudioResult(bytes: string, format: string, duration: Option<real>)

  datatype AudioItem = AudioItem(index: nat, key: string, text: string, classLabel: Option<string>,
                                 voice: Option<string>, format: string, duration: Option<real>)

  function AudioDirectives(spec: Spec): Properties {
    var raw := Directive(spec, "audio");
    if raw.Dict? then raw.entries else map[]
  }

  /** The plan of one index: a given prompt, else the sentence drawn from the index's own seed. */
  function PlanOf(spec: Spec, seed: int, text: Value -> string, sentence: int -> string): nat -> AudioPlan {
    var d := AudioDirectives(spec);
    var prompts, labels := ListOf(Get(d, "prompts")), ListOf(Get(d, "labels"));
    (i: nat) => AudioPlan(
      i,
      AudioRequest(
        if prompts.Some? && i < |prompts.value| then text(prompts.value[i]) else sentence(seed * SEED_STRIDE + i),
        TextOf(Get(d, "voice")), TextOf(Get(d, "language"))),
      if labels.Some? && i < |labels.value| then Some(text(labels.value[i])) else None)
  }

  /** Where each field of a plan comes from, when the "audio" directive is a dictionary. */
  lemma PlanFields(spec: Spec, d: Properties, seed: int, text: Value -> string, sentence: int -> string, i: nat)
    requires Directive(spec, "audio") == Dict(d)
    ensures var plan := PlanOf(spec, seed, text, sentence)(i);
      && plan.index == i
      && (forall s :: plan.request.voice == Some(s) <==> Get(d, "voice") == Str(s))
      && (forall s :: plan.request.language == Some(s) <==> Get(d, "language") == Str(s))
      && (forall items :: Get(d, "labels") == List(items) ==>
            plan.classLabel == if i < |items| then Some(text(items[i])) else None)
      && (!Get(d, "labels").List? ==> plan.classLabel == None)
      && (forall items :: Get(d, "prompts") == List(items) && i < |items| ==> plan.request.text == text(items[i]))
      && (forall items :: Get(d, "prompts") == List(items) && i >= |items| ==>
            plan.request.text == sentence(seed * 1000003 + i))
      && (!Get(d, "prompts").List? ==> plan.request.text == sentence(seed * 1000003 + i))
  {
    hide Directive, Get, TextOf;
    forall s ensures TextOf(Get(d, "voice")) == Some(s) <==> Get(d, "voice") == Str(s) { TextRead(Get(d, "voice"), s); }
    forall s ensures TextOf(Get(d, "language")) == Some(s) <==> Get(d, "language") == Str(s) {
      TextRead(Get(d, "language"), s);
    }
  }

  lemma TextRead(v: Value, s: string)
    ensures TextOf(v) == Some(s) <==> v == Str(s)
  {
  }

  method PlanItems(spec: Spec, startRow: nat, count: nat, seed: int, text: Value -> string, sentence: int -> string)
    returns (plans: seq<AudioPlan>)
    ensures plans == Range(PlanOf(spec, seed, text, sentence), startRow, count)
  {
    var d := AudioDirectives(spec);
    var prompts, labels := ListOf(Get(d, "prompts")), ListOf(Get(d, "labels"));
    var voice, language := TextOf(Get(d, "voice")), TextOf(Get(d, "language"));
    plans := [];
    for i := startRow to startRow + count
      invariant plans == Range(PlanOf(spec, seed, text, sentence), startRow, i - startRow)
    {
      var words :=
        if prompts.Some? && i < |prompts.value| then text(prompts.value[i]) else sentence(seed * SEED_STRIDE + i);
      var classLabel := if labels.Some? && i < |labels.value| then Some(text(labels.value[i])) else None;
      plans := plans + [AudioPlan(i, AudioRequest(words, voice, language), classLabel)];
    }
  }

  /** The manifest entry of one plan, with the provider a function of its request. */
  function AudioEntry(c: Config, plan: nat -> AudioPlan, synthesize: AudioRequest -> AudioResult): nat -> AudioItem {
    (i: nat) =>
      var p := plan(i);
      var r := synthesize(p.request);
      AudioItem(p.index, c.Folder() + "audio/item-" + Decimal(p.index) + "." + r.format, p.request.text, p.classLabel,
                p.request.voice, r.format, r.duration)
  }

  /** One shard: plan its items, synthesize each, and list the manifest entries. */
  method AudioShard(c: Config, spec: Spec, start: nat, count: nat, seed: int, text: Value -> string,
                    sentence: int -> string, synthesize: AudioRequest -> AudioResult) returns (items: seq<AudioItem>)
    ensures items == Range(AudioEntry(c, PlanOf(spec, seed, text, sentence), synthesize), start, count)
  {
    hide PlanOf, Config.Folder, Decimal;
    var plans := PlanItems(spec, start, count, seed, text, sentence);
    items := [];
    for j := 0 to count
      invariant items == Range(AudioEntry(c, PlanOf(spec, seed, text, sentence), synthesize), start, j)
    {
      var p := plans[j];
      var r := synthesize(p.request);
      var key := c.Folder() + "audio/item-" + Decimal(p.index) + "." + r.format;
      items := items +
        [AudioItem(p.index, key, p.request.text, p.classLabel, p.request.voice, r.format, r.duration)];
    }
  }

  method AudioManifest(c: Config, spec: Spec, seed: int, text: Value -> string, sentence: int -> string,
                       synthesize: AudioRequest -> AudioResult) returns (items: seq<AudioItem>)
    ensures items == Range(AudioEntry(c, PlanOf(spec, seed, text, sentence), synthesize), 0, Rows(c.targetRows))
  {
    hide Config.ShardKey, Config.Folder, Decimal;
    var shards := Shards.PlanShards(c.targetRows, c.handler.ShardRows());
    var store := new FragmentStore<AudioItem>();
    var keys: seq<string> := [];
    ghost var entry := AudioEntry(c, PlanOf(spec, seed, text, sentence), synthesize);
    for i := 0 to |shards|
      invariant |keys| == i && store.Holds(c, shards, entry, keys)
    {
      hide PlanOf, AudioEntry;
      var fragment := AudioShard(c, spec, shards[i].0, shards[i].1, seed, text, sentence, synthesize);
      keys := store.Put(c, shards, entry, keys, fragment);
    }
    items := Manifest(c, store, entry, keys, (e: AudioItem) => e.index);
  }

  /** No two clips of a job are stored under one key, whatever their formats. */
  lemma ClipKeysDistinct(c: Config, plan: nat -> AudioPlan, synthesize: AudioRequest -> AudioResult, i: nat, j: nat)
    requires plan(i).index == i && plan(j).index == j
    requires AudioEntry(c, plan, synthesize)(i).key == AudioEntry(c, plan, synthesize)(j).key
    ensures i == j
  {
    hide Decimal, Config.Folder;
    var prefix := c.Folder() + "audio/item-";
    var f, g := synthesize(plan(i).request).format, synthesize(plan(j).request).format;
    var k, m := AudioEntry(c, plan, synthesize)(i).key, AudioEntry(c, plan, synthesize)(j).key;
    assert k == prefix + (Decimal(i) + "." + f) && m == prefix + (Decimal(j) + "." + g);
    SamePrefix(prefix, Decimal(i) + "." + f, Decimal(j) + "." + g);
    DecimalRoundTrip(i);
    DecimalRoundTrip(j);
    FirstMarkSplits('.', Decimal(i), Decimal(j), f, g);
  }

  // Video

  datatype VideoRequest = VideoRequest(prompt: string, seed: int)

  /** A clip; `meta` stands for the fields the manifest copies unread. */
  datatype Asset = Asset(meta: string, content: string)

  /** `objectKey` is empty until the clip is uploaded. */
  datatype VideoItem = VideoItem(index: nat, prompt: string, meta: string, size: nat, objectKey: string)

  /** The directives' sentences, after sorting by key. */
  function Clauses(sorted: seq<Entry>, k: nat, text: Value -> string, capital: string -> string): string
    requires k <= |sorted|
  {
    if k == 0 then ""
    else
      Clauses(sorted, k - 1, text, capital) +
      " " + capital(sorted[k - 1].key) + ": " + text(sorted[k - 1].value) + "."
  }

  /** Each directive's sentence stands in the prompt. */
  lemma {:induction false} ClauseHolds(sorted: seq<Entry>, k: nat, text: Value -> string, capital: string -> string,
                                       i: nat)
    requires i < k <= |sorted|
    ensures Contains(Clauses(sorted, k, text, capital),
                     " " + capital(sorted[i].key) + ": " + text(sorted[i].value) + ".")
  {
    hide Contains;
    var sentence := " " + capital(sorted[k - 1].key) + ": " + text(sorted[k - 1].value) + ".";
    var before := Clauses(sorted, k - 1, text, capital);
    if i == k - 1 {
      ContainsAt(before, sentence, "");
      assert before + sentence + "" == Clauses(sorted, k, text, capital);
    } else {
      ClauseHolds(sorted, k - 1, text, capital, i);
      var needle := " " + capital(sorted[i].key) + ": " + text(sorted[i].value) + ".";
      var a, b := ContainsSplits(before, needle);
      ContainsAt(a, needle, b + sentence);
      assert a + needle + (b + sentence) == Clauses(sorted, k, text, capital);
    }
  }

  function VideoPrompt(spec: Spec, index: nat, text: Value -> string, capital: string -> string): string {
    var sorted := SortBy(spec.directives, EntryKey, StrLe);
    "Item " + Decimal(index) + ": " + spec.description + "." + Clauses(sorted, |sorted|, text, capital)
  }

  function ItemSeed(seed: int, index: nat): int { seed * SEED_STRIDE + index }

  function ClipOf(spec: Spec, seed: int, text: Value -> string, capital: string -> string,
                  generate: VideoRequest -> Asset): nat -> VideoItem {
    (i: nat) =>
      var prompt := VideoPrompt(spec, i, text, capital);
      var asset := generate(VideoRequest(prompt, ItemSeed(seed, i)));
      VideoItem(i, prompt, asset.meta, |asset.content|, "")
  }

  method GenerateItems(spec: Spec, startIndex: nat, count: nat, seed: int, text: Value -> string,
                       capital: string -> string, generate: VideoRequest -> Asset) returns (results: seq<VideoItem>)
    ensures results == Range(ClipOf(spec, seed, text, capital, generate), startIndex, count)
  {
    hide VideoPrompt;
    results := [];
    for offset := 0 to count
      invariant results == Range(ClipOf(spec, seed, text, capital, generate), startIndex, offset)
    {
      var index := startIndex + offset;
      var prompt := VideoPrompt(spec, index, text, capital);
      var asset := generate(VideoRequest(prompt, ItemSeed(seed, index)));
      assert ClipOf(spec, seed, text, capital, generate)(index)
               == VideoItem(index, prompt, asset.meta, |asset.content|, "");
      results := results + [VideoItem(index, prompt, asset.meta, |asset.content|, "")];
    }
  }

  /** The manifest entry of one clip, under the key it is uploaded to. */
  function ClipEntry(c: Config, clip: nat -> VideoItem): nat -> VideoItem {
    (i: nat) => clip(i).(objectKey := c.Folder() + "videos/item-" + Decimal(clip(i).index) + ".mp4")
  }

  method VideoShard(c: Config, spec: Spec, start: nat, count: nat, seed: int, text: Value -> string,
                    capital: string -> string, generate: VideoRequest -> Asset) returns (items: seq<VideoItem>)
    ensures items == Range(ClipEntry(c, ClipOf(spec, seed, text, capital, generate)), start, count)
  {
    hide ClipOf, Config.Folder, Decimal;
    var results := GenerateItems(spec, start, count, seed, text, capital, generate);
    items := [];
    for j := 0 to count
      invariant items == Range(ClipEntry(c, ClipOf(spec, seed, text, capital, generate)), start, j)
    {
      var key := c.Folder() + "videos/item-" + Decimal(results[j].index) + ".mp4";
      items := items + [results[j].(objectKey := key)];
    }
  }

  method VideoManifest(c: Config, spec: Spec, seed: int, text: Value -> string, capital: string -> string,
                       generate: VideoRequest -> Asset) returns (items: seq<VideoItem>)
    ensures items == Range(ClipEntry(c, ClipOf(spec, seed, text, capital, generate)), 0, Rows(c.targetRows))
  {
    hide Config.ShardKey, Config.Folder, Decimal, VideoPrompt;
    var shards := Shards.PlanShards(c.targetRows, c.handler.ShardRows());
    var store := new FragmentStore<VideoItem>();
    var keys: seq<string> := [];
    ghost var entry := ClipEntry(c, ClipOf(spec, seed, text, capital, generate));
    for i := 0 to |shards|
      invariant |keys| == i && store.Holds(c, shards, entry, keys)
    {
      hide ClipOf, ClipEntry;
      var fragment := VideoShard(c, spec, shards[i].0, shards[i].1, seed, text, capital, generate);
      keys := store.Put(c, shards, entry, keys, fragment);
    }
    items := Manifest(c, store, entry, keys, (v: VideoItem) => v.index);
  }

  /** Seeds are distinct within a job; with fewer items than the stride, across base seeds too. */
  lemma SeedsDistinct(s: int, i: nat, t: int, j: nat)
    ensures ItemSeed(s, i) == ItemSeed(s, j) ==> i == j
    ensures i < SEED_STRIDE && j < SEED_STRIDE && ItemSeed(s, i) == ItemSeed(t, j) ==> s == t && i == j
  {
  }

  /** A batch of clips never repeats a prompt. */
  lemma PromptsDistinct(spec: Spec, i: nat, j: nat, text: Value -> string, capital: string -> string)
    ensures VideoPrompt(spec, i, text, capital) == VideoPrompt(spec, j, text, capital) ==> i == j
  {
    hide Clauses, SortBy, Decimal;
    if VideoPrompt(spec, i, text, capital) == VideoPrompt(spec, j, text, capital) {
      var sorted := SortBy(spec.directives, EntryKey, StrLe);
      var rest := " " + spec.description + "." + Clauses(sorted, |sorted|, text, capital);
      DecimalRoundTrip(i);
      DecimalRoundTrip(j);
      assert VideoPrompt(spec, i, text, capital) == "Item " + (Decimal(i) + ":" + rest);
      assert VideoPrompt(spec, j, text, capital) == "Item " + (Decimal(j) + ":" + rest);
      SamePrefix("Item ", Decimal(i) + ":" + rest, Decimal(j) + ":" + rest);
      FirstMarkSplits(':', Decimal(i), Decimal(j), rest, rest);
    }
  }

  // Images

  datatype PromptItem = PromptItem(index: nat, classLabel: Option<string>, prompt: string)

  /** `[str(c) for c in choices]`. */
  function Texts(items: seq<Value>, text: Value -> string): seq<string> {
    MapSeq(text, items)
  }

  function FieldChoices(fields: seq<Field>, text: Value -> string): seq<string> {
    if |fields| == 0 then []
    else
      var choices := Get(fields[0].constraints, "choices");
      if fields[0].categorical && choices.List? && |choices.items| > 0 then Texts(choices.items, text)
      else FieldChoices(fields[1..], text)
  }

  function LabelChoices(spec: Spec, text: Value -> string): seq<string> {
    var fromFields := FieldChoices(spec.fields, text);
    var labels := Directive(spec, "labels");
    if |fromFields| > 0 then fromFields
    else if labels.List? then Texts(labels.items, text)
    else []
  }

  function Clause(name: string, v: Value, text: Value -> string): seq<string> {
    if Truthy(v) then [name + ": " + text(v)] else []
  }

  function JoinComma(parts: seq<string>, k: nat): string
    requires k <= |parts|
  {
    if k == 0 then "" else if k == 1 then parts[0] else JoinComma(parts, k - 1) + ", " + parts[k - 1]
  }

  function Compose(spec: Spec, classLabel: Option<string>, text: Value -> string): string {
    var description := Strip(spec.description);
    var parts :=
      (if description != "" then [description] else []) +
      (if classLabel.Some? && classLabel.value != "" then ["class: " + classLabel.value] else []) +
      Clause("bias", Directive(spec, "bias"), text) +
      Clause("use-case", Directive(spec, "use_case"), text) +
      Clause("edge-case", Directive(spec, "edge_case"), text) +
      Clause("style", Directive(spec, "style"), text);
    if |parts| > 0 then JoinComma(parts, |parts|) else "a photorealistic image"
  }

  /** The field supplies labels: it is categorical and lists choices. */
  predicate Offers(f: Field) {
    f.categorical && Get(f.constraints, "choices").List? && Get(f.constraints, "choices").items != []
  }

  lemma {:induction false} FirstOffer(fields: seq<Field>, text: Value -> string, i: nat)
    requires i < |fields| && Offers(fields[i]) && forall j :: 0 <= j < i ==> !Offers(fields[j])
    ensures FieldChoices(fields, text) == Texts(Get(fields[i].constraints, "choices").items, text)
  {
    if i > 0 {
      assert !Offers(fields[0]);
      FirstOffer(fields[1..], text, i - 1);
    }
  }

  lemma {:induction false} NoOffer(fields: seq<Field>, text: Value -> string)
    requires forall j :: 0 <= j < |fields| ==> !Offers(fields[j])
    ensures FieldChoices(fields, text) == []
  {
    if |fields| > 0 {
      assert !Offers(fields[0]);
      NoOffer(fields[1..], text);
    }
  }

  /** Labels come from the first field that offers choices, else from the "labels" directive when that is a list. */
  lemma LabelsFrom(spec: Spec, text: Value -> string)
    ensures forall i :: 0 <= i < |spec.fields| && Offers(spec.fields[i])
                        && (forall j :: 0 <= j < i ==> !Offers(spec.fields[j])) ==>
              LabelChoices(spec, text) == MapSeq(text, Get(spec.fields[i].constraints, "choices").items)
    ensures (forall j :: 0 <= j < |spec.fields| ==> !Offers(spec.fields[j])) ==>
              && (forall items :: Directive(spec, "labels") == List(items) ==>
                    LabelChoices(spec, text) == MapSeq(text, items))
              && (!Directive(spec, "labels").List? ==> LabelChoices(spec, text) == [])
  {
    hide Directive;
    forall i | 0 <= i < |spec.fields| && Offers(spec.fields[i]) && (forall j :: 0 <= j < i ==> !Offers(spec.fields[j]))
      ensures LabelChoices(spec, text) == MapSeq(text, Get(spec.fields[i].constraints, "choices").items)
    {
      FirstOffer(spec.fields, text, i);
      SomeOffered(spec.fields[i], text);
    }
    if forall j :: 0 <= j < |spec.fields| ==> !Offers(spec.fields[j]) { NoOffer(spec.fields, text); }
  }

  lemma SomeOffered(f: Field, text: Value -> string)
    requires Offers(f)
    ensures Get(f.constraints, "choices").List? && |Texts(Get(f.constraints, "choices").items, text)| > 0
  {
  }

  /** Each part stands in the joined text, in order, with a comma between neighbours. */
  lemma {:induction false} JoinedParts(parts: seq<string>, k: nat, i: nat) returns (before: string, after: string)
    requires i < k <= |parts|
    ensures JoinComma(parts, k) == before + parts[i] + after
    ensures before == if i == 0 then "" else JoinComma(parts, i) + ", "
    ensures i == k - 1 ==> after == ""
    ensures i < k - 1 ==> ", " <= after
  {
    if i == k - 1 {
      before, after := if i == 0 then "" else JoinComma(parts, i) + ", ", "";
    } else {
      before, after := JoinedParts(parts, k - 1, i);
      var whole := after + ", " + parts[k - 1];
      assert JoinComma(parts, k) == before + parts[i] + whole;
      assert i == k - 2 ==> whole == ", " + parts[k - 1];
      after := whole;
    }
  }

  lemma PartMentioned(parts: seq<string>, part: string)
    requires part in parts
    ensures Contains(JoinComma(parts, |parts|), part)
  {
    hide JoinComma, Contains;
    var i :| 0 <= i < |parts| && parts[i] == part;
    var before, after := JoinedParts(parts, |parts|, i);
    ContainsAt(before, part, after);
  }

  lemma SetClause(name: string, v: Value, text: Value -> string, parts: seq<string>)
    requires forall part :: part in Clause(name, v, text) ==> part in parts
    ensures Truthy(v) ==> name + ": " + text(v) in parts
  {
    hide Truthy;
    if Truthy(v) { assert Clause(name, v, text)[0] == name + ": " + text(v); }
  }

  lemma ClauseNames()
    ensures "bias" + ": " == "bias: " && "use-case" + ": " == "use-case: "
    ensures "edge-case" + ": " == "edge-case: " && "style" + ": " == "style: "
  {
  }

  /** What a prompt mentions: the description, the label, and each directive that is set. */
  lemma PromptMentions(spec: Spec, classLabel: Option<string>, text: Value -> string)
    ensures var p := Compose(spec, classLabel, text);
      && (Strip(spec.description) != "" ==> Contains(p, Strip(spec.description)))
      && (classLabel.Some? && classLabel.value != "" ==> Contains(p, "class: " + classLabel.value))
      && (Truthy(Directive(spec, "bias")) ==> Contains(p, "bias: " + text(Directive(spec, "bias"))))
      && (Truthy(Directive(spec, "use_case")) ==> Contains(p, "use-case: " + text(Directive(spec, "use_case"))))
      && (Truthy(Directive(spec, "edge_case")) ==> Contains(p, "edge-case: " + text(Directive(spec, "edge_case"))))
      && (Truthy(Directive(spec, "style")) ==> Contains(p, "style: " + text(Directive(spec, "style"))))
      && (Strip(spec.description) == "" && !(classLabel.Some? && classLabel.value != "")
          && !Truthy(Directive(spec, "bias")) && !Truthy(Directive(spec, "use_case"))
          && !Truthy(Directive(spec, "edge_case")) && !Truthy(Directive(spec, "style")) ==>
            p == "a photorealistic image")
  {
    hide Strip, Directive, Truthy, Contains, JoinComma;
    var description := Strip(spec.description);
    var parts :=
      (if description != "" then [description] else []) +
      (if classLabel.Some? && classLabel.value != "" then ["class: " + classLabel.value] else []) +
      Clause("bias", Directive(spec, "bias"), text) +
      Clause("use-case", Directive(spec, "use_case"), text) +
      Clause("edge-case", Directive(spec, "edge_case"), text) +
      Clause("style", Directive(spec, "style"), text);
    assert |parts| > 0 ==> Compose(spec, classLabel, text) == JoinComma(parts, |parts|);
    ClauseNames();
    forall part | part in parts ensures Contains(Compose(spec, classLabel, text), part) { PartMentioned(parts, part); }
    SetClause("bias", Directive(spec, "bias"), text, parts);
    SetClause("use-case", Directive(spec, "use_case"), text, parts);
    SetClause("edge-case", Directive(spec, "edge_case"), text, parts);
    SetClause("style", Directive(spec, "style"), text, parts);
  }

  function PromptOf(spec: Spec, text: Value -> string): nat -> PromptItem {
    var choices := LabelChoices(spec, text);
    (i: nat) =>
      var classLabel := if |choices| > 0 then Some(choices[i % |choices|]) else None;
      PromptItem(i, classLabel, Compose(spec, classLabel, text))
  }

  method Build(spec: Spec, startRow: nat, count: nat, text: Value -> string) returns (items: seq<PromptItem>)
    ensures items == Range(PromptOf(spec, text), startRow, count)
  {
    hide Compose, LabelChoices;
    var choices := LabelChoices(spec, text);
    items := [];
    for offset := 0 to count
      invariant items == Range(PromptOf(spec, text), startRow, offset)
    {
      var itemIndex := startRow + offset;
      var classLabel := if |choices| > 0 then Some(choices[itemIndex % |choices|]) else None;
      items := items + [PromptItem(itemIndex, classLabel, Compose(spec, classLabel, text))];
    }
  }

  method ImageManifest(c: Config, spec: Spec, text: Value -> string) returns (items: seq<PromptItem>)
    ensures items == Range(PromptOf(spec, text), 0, Rows(c.targetRows))
  {
    hide Compose, LabelChoices, Config.ShardKey;
    var shards := Shards.PlanShards(c.targetRows, c.handler.ShardRows());
    var store := new FragmentStore<PromptItem>();
    var keys: seq<string> := [];
    ghost var entry := PromptOf(spec, text);
    for i := 0 to |shards|
      invariant |keys| == i && store.Holds(c, shards, entry, keys)
    {
      hide PromptOf;
      var fragment := Build(spec, shards[i].0, shards[i].1, text);
      keys := store.Put(c, shards, entry, keys, fragment);
    }
    items := Manifest(c, store, entry, keys, (p: PromptItem) => p.index);
  }

  /** Images are drawn from `seed + shard number + index`. */
  function ImageSeed(seed: int, shard: nat, index: nat): int { seed + shard + index }

  /**
   * Image labels and prompts ignore sharding but image seeds do not: an index's seed grows with its shard number,
   * which is its quotient by the shard size.  Within one job the seeds are still distinct.
   */
  lemma ImageSeedsFollowShards(seed: int, target: int, rows: nat, k: nat, i: nat, m: nat, j: nat)
    requires rows > 0 && target > 0
    requires k < |Plan(target, rows)|
             && Plan(target, rows)[k].0 <= i < Plan(target, rows)[k].0 + Plan(target, rows)[k].1
    requires m < |Plan(target, rows)|
             && Plan(target, rows)[m].0 <= j < Plan(target, rows)[m].0 + Plan(target, rows)[m].1
    ensures ImageSeed(seed, k, i) == seed + i / rows + i
    ensures ImageSeed(seed, k, i) == ImageSeed(seed, m, j) <==> i == j
  {
    PlanTiles(target, rows);
    var shards := Plan(target, rows);
    TileStart(shards, target, rows, k);
    TileStart(shards, target, rows, m);
    DivMod(k, i - k * rows, rows);
    DivMod(m, j - m * rows, rows);
    if k < m {
      TilesOrdered(shards, 0, target, rows, k, m);
    } else if m < k {
      TilesOrdered(shards, 0, target, rows, m, k);
    }
  }
}
