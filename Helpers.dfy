/**
 * The file-name rule shared by store_json and load_json: a name whose last
 * five characters are not ".json" gets ".json" appended. The file system is
 * a map from path to the stored document.
 */
module Helpers {
  import opened Results

  const JsonSuffix: string := ".json"

  /** Python's filename[-5:]: the last five characters, or all of a shorter name. */
  function LastFive(filename: string): string
  {
    if |filename| >= 5 then filename[|filename| - 5..] else filename
  }

  predicate EndsWithJson(filename: string)
  {
    |filename| >= |JsonSuffix| && filename[|filename| - |JsonSuffix|..] == JsonSuffix
  }

  /** The path store_json writes to and load_json reads from for a given name. */
  function JsonPath(filename: string): (path: string)
    ensures EndsWithJson(path)
    ensures EndsWithJson(filename) ==> path == filename
    ensures !EndsWithJson(filename) ==> |path| == |filename| + 5 && path[..|filename|] == filename
  {
    if LastFive(filename) != JsonSuffix then filename + JsonSuffix else filename
  }

  /** Normalising a normalised name changes nothing. */
  lemma JsonPathIdempotent(filename: string)
    ensures JsonPath(JsonPath(filename)) == JsonPath(filename)
  {
  }

  /** store_json: the whole document is written to JsonPath(filename). */
  function StoreJson<T>(files: map<string, T>, data: T, filename: string): (files': map<string, T>)
    ensures files'.Keys == files.Keys + {JsonPath(filename)}
    ensures files'[JsonPath(filename)] == data
    ensures forall path :: path in files && path != JsonPath(filename) ==> files'[path] == files[path]
  {
    files[JsonPath(filename) := data]
  }

  /** load_json: the document at JsonPath(filename); None stands for FileNotFoundError. */
  function LoadJson<T>(files: map<string, T>, filename: string): (r: Option<T>)
    ensures r.Some? <==> JsonPath(filename) in files
    ensures r.Some? ==> r.value == files[JsonPath(filename)]
  {
    if JsonPath(filename) in files then Some(files[JsonPath(filename)]) else None
  }

  /**
   * Two names reach the same file exactly when they are equal or one is the
   * other, which does not end in ".json", with ".json" appended.
   */
  lemma {:induction false} SamePathIff(a: string, b: string)
    ensures JsonPath(a) == JsonPath(b) <==>
      || a == b
      || (a == b + JsonSuffix && !EndsWithJson(b))
      || (b == a + JsonSuffix && !EndsWithJson(a))
  {
    if a == b + JsonSuffix && !EndsWithJson(b) {
      assert a[|a| - 5..] == JsonSuffix;
    }
    if b == a + JsonSuffix && !EndsWithJson(a) {
      assert b[|b| - 5..] == JsonSuffix;
    }
  }

  /**
   * A document stored under a name is loaded back under that name, and under
   * the name with ".json" appended when the name lacked the suffix.
   */
  lemma {:induction false} StoreThenLoad<T>(files: map<string, T>, data: T, stored: string, loaded: string)
    requires loaded == stored || (loaded == stored + JsonSuffix && !EndsWithJson(stored))
    ensures LoadJson(StoreJson(files, data, stored), loaded) == Some(data)
  {
    SamePathIff(loaded, stored);
  }
}
