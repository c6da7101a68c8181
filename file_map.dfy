/** `FileMap` (src/fileMap.ts): the flag files of the workspace, keyed by the text of their URI.
    Reading a file from disk and parsing its YAML are left to the host: the model receives the
    parsed contents and `options` entries of the file. */
module FileMaps {
  import opened Wrappers
  import opened Types
  import opened JsMaps
  import opened FlagpoleFiles

  class FileMap {
    var roots: JsMap<string, FlagpoleFile>

    ghost predicate Valid()
      reads this
    {
      JsMaps.Valid(roots)
    }

    constructor()
      ensures Valid() && roots == EmptyMap()
    {
      roots := EmptyMap();
    }

    /** `_readFile(uri)`: a `FlagpoleFile` is made from the parsed document and stored under
        `uri.toString()`, replacing any earlier one; a new key goes to the end of the map. */
    method ReadFile(uri: Uri, contents: YamlContents, options: seq<OptionEntry>) returns (file: FlagpoleFile)
      requires Valid()
      modifies this
      ensures Valid()
      ensures fresh(file) && file.uri == uri && file.contents == contents && file.options == options
      ensures file.Prepared()
      ensures roots == JsMaps.Set(old(roots), uri.text, file)
    {
      file := new FlagpoleFile(uri, contents, options);
      roots := JsMaps.Set(roots, uri.text, file);
    }

    /** `add(uri)` */
    method Add(uri: Uri, contents: YamlContents, options: seq<OptionEntry>) returns (file: FlagpoleFile)
      requires Valid()
      modifies this
      ensures Valid()
      ensures fresh(file) && file.uri == uri && file.contents == contents && file.options == options
      ensures file.Prepared()
      ensures roots == JsMaps.Set(old(roots), uri.text, file)
    {
      file := ReadFile(uri, contents, options);
    }

    /** `update(uri)`: the same as `add(uri)`. */
    method Update(uri: Uri, contents: YamlContents, options: seq<OptionEntry>) returns (file: FlagpoleFile)
      requires Valid()
      modifies this
      ensures Valid()
      ensures fresh(file) && file.uri == uri && file.contents == contents && file.options == options
      ensures file.Prepared()
      ensures roots == JsMaps.Set(old(roots), uri.text, file)
    {
      file := ReadFile(uri, contents, options);
    }

    /** `remove(uri)` */
    method Remove(uri: Uri)
      requires Valid()
      modifies this
      ensures Valid()
      ensures roots == JsMaps.Delete(old(roots), uri.text)
    {
      roots := JsMaps.Delete(roots, uri.text);
    }

    /** `getFile(uri)` */
    function GetFile(uri: Uri): (r: Option<FlagpoleFile>)
      reads this
      ensures r.Some? <==> uri.text in roots.table
      ensures r.Some? ==> r.value == roots.table[uri.text]
    {
      Get(roots, uri.text)
    }

    /** `files`: the stored files, in the order their keys were first added. */
    function Files(): (r: seq<FlagpoleFile>)
      reads this
      requires Valid()
      ensures |r| == |roots.order|
      ensures forall i | 0 <= i < |r| :: r[i] == roots.table[roots.order[i]]
    {
      Values(roots)
    }
  }

  /** After a file is stored under a key, that key gives it back and every other key gives what
      it gave before. */
  lemma StoredFileIsFound<V>(roots: JsMap<string, V>, key: string, file: V, other: string)
    requires JsMaps.Valid(roots)
    ensures Get(JsMaps.Set(roots, key, file), key) == Some(file)
    ensures other != key ==> Get(JsMaps.Set(roots, key, file), other) == Get(roots, other)
  {
  }

  /** After a key is removed, it gives nothing and every other key gives what it gave before. */
  lemma RemovedFileIsGone<V>(roots: JsMap<string, V>, key: string, other: string)
    requires JsMaps.Valid(roots)
    ensures Get(JsMaps.Delete(roots, key), key) == None
    ensures other != key ==> Get(JsMaps.Delete(roots, key), other) == Get(roots, other)
  {
  }

  /** The files listed are exactly the files stored. */
  lemma FilesAreTheStoredValues<V>(roots: JsMap<string, V>, file: V)
    requires JsMaps.Valid(roots)
    ensures file in Values(roots) <==> exists key | key in roots.table :: roots.table[key] == file
  {
    var values := Values(roots);
    if file in values {
      var i :| 0 <= i < |values| && values[i] == file;
      assert roots.order[i] in roots.table;
    }
    if exists key | key in roots.table :: roots.table[key] == file {
      var key :| key in roots.table && roots.table[key] == file;
      var i :| 0 <= i < |roots.order| && roots.order[i] == key;
      assert values[i] == file;
    }
  }
}
