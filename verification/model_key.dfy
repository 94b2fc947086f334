/** The identity string of a persisted model (`ModelKey::build`): the model's
    fully-qualified class name followed by its key, or by each part of a
    composite key, all joined with `:`. */
module ModelKey {
  import opened PhpStrings

  /** One key value as the ORM hands it out. */
  datatype KeyScalar = IntKey(i: int) | StringKey(s: string)

  /** What `getKey()` returns: nothing, one value, or the parts of a composite key. */
  datatype KeyValue = NullKey | SingleKey(key: KeyScalar) | CompositeKey(parts: seq<KeyScalar>)

  /** The two things the key is built from: `$model::class` and `getKey()`. */
  datatype Model = Model(className: string, key: KeyValue)

  /** A key value as `implode` writes it. */
  function ScalarText(k: KeyScalar): string {
    match k
    case IntKey(i) => IntToString(i)
    case StringKey(s) => s
  }

  /** `(array) $model->getKey()`: null becomes the empty list, a single value a
      one-element list, and a composite key stays as it is. */
  function KeyParts(key: KeyValue): seq<KeyScalar> {
    match key
    case NullKey => []
    case SingleKey(k) => [k]
    case CompositeKey(parts) => parts
  }

  /** The key parts as text, in the order `getKey()` returns them. */
  function KeyTexts(key: KeyValue): seq<string> {
    var parts := KeyParts(key);
    seq(|parts|, i requires 0 <= i < |parts| => ScalarText(parts[i]))
  }

  /** `ModelKey::build($model)`. */
  function Build(m: Model): (r: string)
    ensures m.className <= r
    ensures KeyParts(m.key) == [] ==> r == m.className
    ensures m.key.SingleKey? ==> r == m.className + ":" + ScalarText(m.key.key)
    ensures KeyParts(m.key) != [] ==> m.className + ":" <= r
  {
    JoinCons(":", m.className, KeyTexts(m.key));
    Join(":", [m.className] + KeyTexts(m.key))
  }

  /** Class name and key texts free of `:`. */
  predicate ColonFree(m: Model) {
    && ':' !in m.className
    && forall i :: 0 <= i < |KeyTexts(m.key)| ==> ':' !in KeyTexts(m.key)[i]
  }

  /** When no part contains `:`, splitting the key at `:` recovers the class
      name followed by the key parts in the order `getKey()` returns them. */
  lemma BuildSplits(m: Model)
    requires ColonFree(m)
    ensures Split(Build(m), ':') == [m.className] + KeyTexts(m.key)
  {
    SplitJoin([m.className] + KeyTexts(m.key), ':');
  }

  /** Under the same condition, equal keys come from the same class name and
      the same key texts: different models do not share a key. */
  lemma BuildInjective(m1: Model, m2: Model)
    requires ColonFree(m1) && ColonFree(m2)
    requires Build(m1) == Build(m2)
    ensures m1.className == m2.className
    ensures KeyTexts(m1.key) == KeyTexts(m2.key)
  {
    BuildSplits(m1);
    BuildSplits(m2);
    var s := [m1.className] + KeyTexts(m1.key);
    var t := [m2.className] + KeyTexts(m2.key);
    assert s == t;
    assert s[1..] == KeyTexts(m1.key);
    assert t[1..] == KeyTexts(m2.key);
  }

  /** Integer keys never contain `:`, so a model with a class name free of
      `:` and integer key parts always splits back. */
  lemma IntegerKeysAreColonFree(m: Model)
    requires ':' !in m.className
    requires forall i :: 0 <= i < |KeyParts(m.key)| ==> KeyParts(m.key)[i].IntKey?
    ensures ColonFree(m)
  {
    var texts := KeyTexts(m.key);
    forall i | 0 <= i < |texts|
      ensures ':' !in texts[i]
    {
      var t := IntToString(KeyParts(m.key)[i].i);
      assert texts[i] == t;
    }
  }
}
