/** Storing a translation of some fields, and reading an object back in a language. */
module Translation {
  import opened Outcomes

  /** `translations` is the content of `_translations`: per language an object with the translated fields. */
  datatype Value =
    | Null
    | Text(s: string)
    | List(items: seq<Value>)
    | Object(fields: Fields, translations: Fields)

  type Fields = map<string, Value>

  const GERMAN := "de"

  function Get(m: Fields, key: string): Option<Value> {
    if key in m then Some(m[key]) else None
  }

  /** Assigning a property, where nothing stands for `undefined`. */
  function Set(m: Fields, key: string, v: Option<Value>): Fields {
    if v.Some? then m[key := v.value] else m - {key}
  }

  /** The translated fields of a language. */
  function InLanguage(translations: Fields, language: string): Fields {
    if language in translations && translations[language].Object? then translations[language].fields else map[]
  }

  // ---- reading ----

  /** Where a translation is neither missing nor null it takes the place of the field. */
  function Pick(v: Value, language: string, key: string): Option<Value>
    requires v.Object?
  {
    var t := Get(InLanguage(v.translations, language), key);
    if t.Some? && !t.value.Null? then t else Get(v.fields, key)
  }

  /** `applyTranslationsRecursively`, on objects at every depth. */
  function Translated(v: Value, language: string): Value
    decreases v
  {
    match v
    case Object(fields, translations) =>
      Object(map k | k in fields.Keys + InLanguage(translations, language).Keys && Pick(v, language, k).Some? ::
                   Translated(Pick(v, language, k).value, language),
             translations)
    case List(items) => List(TranslatedItems(items, language))
    case _ => v
  }

  function TranslatedItems(items: seq<Value>, language: string): (r: seq<Value>)
    ensures |r| == |items| && forall i :: 0 <= i < |items| ==> r[i] == Translated(items[i], language)
    decreases items
  {
    if items == [] then [] else [Translated(items[0], language)] + TranslatedItems(items[1..], language)
  }

  /** Reading shows the translation where there is one, and the stored field otherwise. */
  lemma ReadsField(v: Value, language: string, key: string)
    requires v.Object?
    ensures
      var picked := Pick(v, language, key);
      Get(Translated(v, language).fields, key)
        == if picked.Some? then Some(Translated(picked.value, language)) else None
  {
  }

  datatype Step = Key(key: string) | Index(i: nat)

  /** What a path of keys and positions leads to. */
  ghost function Along(v: Value, path: seq<Step>): Option<Value>
    decreases |path|
  {
    if path == [] then Some(v)
    else
      match (v, path[0])
      case (Object(fields, _), Key(k)) => if k in fields then Along(fields[k], path[1..]) else None
      case (List(items), Index(i)) => if i < |items| then Along(items[i], path[1..]) else None
      case _ => None
  }

  ghost predicate HasTranslation(translations: Fields, language: string, key: string) {
    language in translations && translations[language].Object? && key in translations[language].fields &&
    translations[language].fields[key] != Null
  }

  /** The same, entering a translation instead of a field wherever the object has one in the language. */
  ghost function AlongTranslations(v: Value, path: seq<Step>, language: string): Option<Value>
    decreases |path|
  {
    if path == [] then Some(v)
    else
      match (v, path[0])
      case (Object(fields, translations), Key(k)) =>
        if HasTranslation(translations, language, k)
        then AlongTranslations(translations[language].fields[k], path[1..], language)
        else if k in fields then AlongTranslations(fields[k], path[1..], language)
        else None
      case (List(items), Index(i)) => if i < |items| then AlongTranslations(items[i], path[1..], language) else None
      case _ => None
  }

  /** At every depth, in objects and lists, reading shows the translations, and texts as they are stored there. */
  lemma {:induction false} ReadsAtEveryDepth(v: Value, path: seq<Step>, language: string)
    ensures
      var stored, shown := AlongTranslations(v, path, language), Along(Translated(v, language), path);
      (shown.Some? <==> stored.Some?) &&
      (stored.Some? ==> shown.value == Translated(stored.value, language)) &&
      (stored.Some? && stored.value.Text? ==> shown == stored)
    decreases |path|
  {
    if path != [] {
      match (v, path[0])
      case (Object(fields, translations), Key(k)) =>
        ReadsField(v, language, k);
        if Pick(v, language, k).Some? {
          ReadsAtEveryDepth(Pick(v, language, k).value, path[1..], language);
        }
      case (List(items), Index(i)) =>
        if i < |items| {
          ReadsAtEveryDepth(items[i], path[1..], language);
        }
      case _ =>
    }
  }

  // ---- writing ----

  /** The input object and the changed fields, as the loop goes on. */
  datatype Progress = Progress(fields: Fields, changed: Fields)

  /** What the input is compared with: the stored translation, or the stored field. */
  function Compared(language: string, before: Value, key: string): Option<Value>
    requires before.Object?
  {
    var t := Get(InLanguage(before.translations, language), key);
    if language != GERMAN && t.Some? then t else Get(before.fields, key)
  }

  function UpdatedKey(language: string, before: Value, p: Progress, key: string): Progress
    requires before.Object?
  {
    if key !in p.fields then p
    else
      var changed := if Some(p.fields[key]) != Compared(language, before, key) then p.changed[key := p.fields[key]]
        else p.changed;
      Progress(if language != GERMAN then Set(p.fields, key, Get(before.fields, key)) else p.fields, changed)
  }

  function UpdatedKeys(language: string, before: Value, p: Progress, keys: seq<string>): Progress
    requires before.Object?
    decreases |keys|
  {
    if keys == [] then p else UpdatedKeys(language, before, UpdatedKey(language, before, p, keys[0]), keys[1..])
  }

  function UpdatedTranslations(translations: Fields, language: string, changed: Fields): Fields {
    translations[language := Object(InLanguage(translations, language) + changed, map[])]
  }

  class Input {
    var fields: Fields
    var translations: Option<Fields>

    /** `updateLanguage`: puts changed fields under the language, and stored values back into the fields. */
    method UpdateLanguage(language: string, before: Value, translatable: seq<string>)
      requires before.Object?
      modifies this
      ensures var done := UpdatedKeys(language, before, Progress(old(fields), map[]), translatable);
        fields == done.fields &&
        translations == Some(UpdatedTranslations(old(translations).GetOr(map[]), language, done.changed))
    {
      var changed: Fields := map[];
      for i := 0 to |translatable|
        invariant translations == old(translations)
        invariant UpdatedKeys(language, before, Progress(fields, changed), translatable[i..])
          == UpdatedKeys(language, before, Progress(old(fields), map[]), translatable)
      {
        var key := translatable[i];
        assert translatable[i..][0] == key && translatable[i..][1..] == translatable[i + 1..];
        var compare := Get(before.fields, key);
        if language != GERMAN && key in InLanguage(before.translations, language) {
          compare := Get(InLanguage(before.translations, language), key);
        }
        if Get(fields, key) != compare && key in fields {
          changed := changed[key := fields[key]];
          if language != GERMAN {
            fields := Set(fields, key, Get(before.fields, key));
          }
        } else if language != GERMAN && key in fields {
          fields := Set(fields, key, Get(before.fields, key));
        }
      }
      if translations.None? {
        translations := Some(map[]);
      }
      var there := translations.value;
      translations := Some(there[language := Object(InLanguage(there, language) + changed, map[])]);
    }
  }

  // ---- what the loop does to one field ----

  /** The same as far as one key goes. */
  predicate Agree(p: Progress, q: Progress, key: string) {
    Get(p.fields, key) == Get(q.fields, key) && Get(p.changed, key) == Get(q.changed, key)
  }

  /** One key dealt with `n` times. */
  function Repeated(language: string, before: Value, p: Progress, key: string, n: nat): Progress
    requires before.Object?
    decreases n
  {
    if n == 0 then p else Repeated(language, before, UpdatedKey(language, before, p, key), key, n - 1)
  }

  lemma {:induction false} RepeatedAgrees(language: string, before: Value, p: Progress, q: Progress, key: string,
                                          n: nat)
    requires before.Object? && Agree(p, q, key)
    ensures Agree(Repeated(language, before, p, key, n), Repeated(language, before, q, key, n), key)
    decreases n
  {
    if n > 0 {
      RepeatedAgrees(language, before, UpdatedKey(language, before, p, key), UpdatedKey(language, before, q, key), key,
                     n - 1);
    }
  }

  /** Each key depends on its own values and on how often it is listed only. */
  lemma {:induction false} KeyAlone(language: string, before: Value, p: Progress, keys: seq<string>, key: string)
    requires before.Object?
    ensures Agree(UpdatedKeys(language, before, p, keys), Repeated(language, before, p, key, multiset(keys)[key]), key)
    decreases |keys|
  {
    if keys != [] {
      var next, n := UpdatedKey(language, before, p, keys[0]), multiset(keys[1..])[key];
      KeyAlone(language, before, next, keys[1..], key);
      assert keys == [keys[0]] + keys[1..];
      if keys[0] != key {
        RepeatedAgrees(language, before, next, p, key, n);
      }
    }
  }

  /** From the second time on nothing changes. */
  lemma {:induction false} RepeatedSettles(language: string, before: Value, p: Progress, key: string, n: nat)
    requires before.Object? && n >= 2
    ensures Agree(Repeated(language, before, p, key, n), Repeated(language, before, p, key, 2), key)
    decreases n
  {
    if n > 2 {
      var one := UpdatedKey(language, before, p, key);
      var two := UpdatedKey(language, before, one, key);
      RepeatedSettles(language, before, one, key, n - 1);
      assert Repeated(language, before, p, key, 2) == Repeated(language, before, one, key, 1)
        == Repeated(language, before, two, key, 0);
      assert Repeated(language, before, one, key, 2) == Repeated(language, before, two, key, 1)
        == UpdatedKey(language, before, two, key);
      assert Agree(UpdatedKey(language, before, two, key), two, key);
    }
  }

  /** What the loop does to a listed key. */
  lemma KeyListed(language: string, before: Value, p: Progress, keys: seq<string>, key: string)
    requires before.Object? && key in keys
    ensures
      var one := UpdatedKey(language, before, p, key);
      var end := if multiset(keys)[key] > 1 then UpdatedKey(language, before, one, key) else one;
      Agree(UpdatedKeys(language, before, p, keys), end, key)
  {
    var n := multiset(keys)[key];
    var one := UpdatedKey(language, before, p, key);
    KeyAlone(language, before, p, keys, key);
    assert Repeated(language, before, p, key, 1) == Repeated(language, before, one, key, 0) == one;
    assert Repeated(language, before, p, key, 2) == Repeated(language, before, one, key, 1)
      == UpdatedKey(language, before, one, key);
    if n > 1 {
      RepeatedSettles(language, before, p, key, n);
    }
  }

  lemma {:induction false} OnlyListedKeysChange(language: string, before: Value, p: Progress, keys: seq<string>)
    requires before.Object?
    ensures forall k :: k in UpdatedKeys(language, before, p, keys).changed ==> k in p.changed || k in keys
    decreases |keys|
  {
    if keys != [] {
      OnlyListedKeysChange(language, before, UpdatedKey(language, before, p, keys[0]), keys[1..]);
    }
  }

  // ---- storing and reading back ----

  /** The stored object after an update with the input. */
  function Saved(before: Value, fields: Fields, translations: Fields): Value
    requires before.Object?
  {
    Object(before.fields + fields, translations)
  }

  /** What is stored for an input that carries the stored `_translations`. */
  function Stored(language: string, before: Value, input: Fields, keys: seq<string>): Value
    requires before.Object?
  {
    var done := UpdatedKeys(language, before, Progress(input, map[]), keys);
    Saved(before, done.fields, UpdatedTranslations(before.translations, language, done.changed))
  }

  /**
   * A repeated key: after the first time the input has the stored field, which then overwrites the
   * translation, if one is stored that differs.
   */
  predicate Overwritten(language: string, before: Value, keys: seq<string>, key: string)
    requires before.Object?
  {
    var t := Get(InLanguage(before.translations, language), key);
    multiset(keys)[key] > 1 && t.Some? && key in before.fields && t.value != before.fields[key]
  }

  /**
   * In every language other than German, an update with translatable fields reads back, in that
   * language, as the supplied value, or as the stored field if the value is null or overwritten; the
   * default-language values stay as stored, and so do all other languages.
   */
  lemma TranslationReadsBack(language: string, before: Value, input: Fields, keys: seq<string>, key: string)
    requires before.Object? && language != "de" && key in keys && key in input
    ensures
      var stored := Stored(language, before, input, keys);
      var base := Get(before.fields, key);
      var shown := if input[key] == Null || Overwritten(language, before, keys, key) then base else Some(input[key]);
      Get(Translated(stored, language).fields, key)
        == (if shown.Some? then Some(Translated(shown.value, language)) else None) &&
      Get(stored.fields, key) == base &&
      forall other :: other != language ==> Get(stored.translations, other) == Get(before.translations, other)
  {
    var p := Progress(input, map[]);
    KeyListed(language, before, p, keys, key);
    ReadsField(Stored(language, before, input, keys), language, key);
  }

  /** A supplied text reads back exactly if it is not overwritten by a stored field that reads differently. */
  lemma TextReadsBackExactly(language: string, before: Value, input: Fields, keys: seq<string>, key: string,
                             text: string)
    requires before.Object? && language != "de" && key in keys && Get(input, key) == Some(Text(text))
    ensures Get(Translated(Stored(language, before, input, keys), language).fields, key) == Some(Text(text)) <==>
      !Overwritten(language, before, keys, key) || before.fields[key] == Text(text)
  {
    TranslationReadsBack(language, before, input, keys, key);
  }

  /** Translations of fields that are not supplied stay. */
  lemma OtherTranslationsStay(language: string, before: Value, input: Fields, keys: seq<string>, key: string)
    requires before.Object? && (key !in keys || key !in input)
    ensures
      var stored := Stored(language, before, input, keys);
      Get(InLanguage(stored.translations, language), key) == Get(InLanguage(before.translations, language), key)
  {
    var p := Progress(input, map[]);
    if key in keys {
      KeyListed(language, before, p, keys, key);
    } else {
      OnlyListedKeysChange(language, before, p, keys);
    }
  }

  /**
   * In German the fields themselves are written. Reading back shows a supplied value exactly if it
   * differs from the stored field, or the stored German translation, if there is one, agrees with it.
   */
  lemma GermanReadsBackExactly(before: Value, input: Fields, keys: seq<string>, key: string, text: string)
    requires before.Object? && key in keys && Get(input, key) == Some(Text(text))
    ensures
      var stored := Stored("de", before, input, keys);
      var german := Get(InLanguage(before.translations, "de"), key);
      Get(stored.fields, key) == Some(Text(text)) &&
      (Get(Translated(stored, "de").fields, key) == Some(Text(text)) <==>
        Get(before.fields, key) != Some(Text(text)) || german.None? || german == Some(Null) ||
        Translated(german.value, "de") == Text(text))
  {
    var p := Progress(input, map[]);
    KeyListed(GERMAN, before, p, keys, key);
    ReadsField(Stored(GERMAN, before, input, keys), GERMAN, key);
  }

  /** A field listed twice overwrites its own translation with the default-language value. */
  lemma ListedTwiceLosesTheTranslation(language: string, key: string, german: string, text: string)
    requires language != "de" && text != german
    ensures
      var before := Object(map[key := Text(german)], map[language := Object(map[key := Text(text)], map[])]);
      Get(Translated(Stored(language, before, map[key := Text(text)], [key, key]), language).fields, key)
        == Some(Text(german))
  {
    var before := Object(map[key := Text(german)], map[language := Object(map[key := Text(text)], map[])]);
    TranslationReadsBack(language, before, map[key := Text(text)], [key, key], key);
  }
}
