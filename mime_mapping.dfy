// The table from file name extensions to mime types, and the set of mime types outside
// "text/" that are nevertheless textual.

module MimeMapping {
  import opened Wrappers
  import opened JavaString

  /** The lower-cased text after the last '.', or None when the name has no '.'. */
  function Extension(fileName: string): (r: Option<string>)
    ensures r.None? <==> '.' !in fileName
  {
    var dotPos := LastIndexOf(fileName, '.');
    if dotPos < 0 then None else Some(ToLower(fileName[dotPos + 1..]))
  }

  /** lookup(fileName) against a mappings table; a null value stored by addMapping reads as null. */
  function LookupIn(mappings: map<string, Option<string>>, fileName: Option<string>): (r: Option<string>)
    ensures fileName.None? ==> r.None?
    ensures r.Some? ==> Extension(fileName.value).Some? && Extension(fileName.value).value in mappings
  {
    if fileName.None? then None
    else
      match Extension(fileName.value)
      case None => None
      case Some(ext) => if ext in mappings then mappings[ext] else None
  }

  /** isTextualMimeType against a set of explicit textual types. */
  predicate IsTextual(textMimeTypes: set<string>, mimeType: Option<string>)
  {
    mimeType.Some? && ("text/" <= mimeType.value || mimeType.value in textMimeTypes)
  }

  class MimeMapping {
    /** Extension, lower-cased, to mime type (None for a null type). */
    var mappings: map<string, Option<string>>
    /** The explicitly textual types. */
    var textMimeTypes: set<string>

    constructor ()
      ensures mappings == map[] && textMimeTypes == {}
    {
      mappings := map[];
      textMimeTypes := {};
    }

    /** lookup(fileName). */
    method Lookup(fileName: Option<string>) returns (r: Option<string>)
      ensures r == LookupIn(mappings, fileName)
    {
      if fileName.None? {
        return None;
      }
      var dotPos := LastIndexOf(fileName.value, '.');
      if dotPos < 0 {
        return None;
      }
      var extension := ToLower(fileName.value[dotPos + 1..]);
      r := if extension in mappings then mappings[extension] else None;
    }

    /** isTextualMimeType(mimeType). */
    method IsTextualMimeType(mimeType: Option<string>) returns (r: bool)
      ensures r == IsTextual(textMimeTypes, mimeType)
    {
      if mimeType.None? {
        return false;
      }
      if "text/" <= mimeType.value {
        return true;
      }
      r := mimeType.value in textMimeTypes;
    }

    /** addMapping: the key is lower-cased; a null extension throws NullPointerException. */
    method AddMapping(extension: Option<string>, mimeType: Option<string>) returns (r: Result<()>)
      modifies this
      ensures textMimeTypes == old(textMimeTypes)
      ensures extension.None? ==> r == Err(NullPointer) && mappings == old(mappings)
      ensures extension.Some? ==> r == Ok(()) && mappings == old(mappings)[ToLower(extension.value) := mimeType]
    {
      if extension.None? {
        return Err(NullPointer);
      }
      mappings := mappings[ToLower(extension.value) := mimeType];
      r := Ok(());
    }

    /** addExplicitTextMimeType; a null type is never looked for, so it is not recorded. */
    method AddExplicitTextMimeType(mimeType: Option<string>)
      modifies this
      ensures mappings == old(mappings)
      ensures textMimeTypes == if mimeType.Some? then old(textMimeTypes) + {mimeType.value} else old(textMimeTypes)
    {
      if mimeType.Some? {
        textMimeTypes := textMimeTypes + {mimeType.value};
      }
    }
  }

  /** The extension of a name is what follows its last '.', lower-cased. */
  lemma ExtensionOfDotted(stem: string, ext: string)
    requires '.' !in ext
    ensures Extension(stem + "." + ext) == Some(ToLower(ext))
  {
    var s := stem + "." + ext;
    var k := LastIndexOf(s, '.');
    assert s[|stem|] == '.';
    assert forall j :: |stem| < j < |s| ==> s[j] == ext[j - |stem| - 1];
    assert k == |stem|;
    assert s[k + 1..] == ext;
  }

  /**
   * A mapping added under any capitalisation is found for every file whose extension has the
   * same lower-case form.
   */
  lemma LookupIgnoresCase(mappings: map<string, Option<string>>, added: string, mimeType: Option<string>,
                          stem: string, ext: string)
    requires '.' !in ext && ToLower(ext) == ToLower(added)
    ensures LookupIn(mappings[ToLower(added) := mimeType], Some(stem + "." + ext)) == mimeType
  {
    ExtensionOfDotted(stem, ext);
  }

  /** Any other extension is looked up as before the mapping was added. */
  lemma LookupOtherExtension(mappings: map<string, Option<string>>, added: string, mimeType: Option<string>,
                             fileName: string)
    requires Extension(fileName) != Some(ToLower(added))
    ensures LookupIn(mappings[ToLower(added) := mimeType], Some(fileName)) == LookupIn(mappings, Some(fileName))
  {
  }

  /** Without a '.', no mime type is found whatever the table holds. */
  lemma NoDotNoType(mappings: map<string, Option<string>>, fileName: string)
    requires '.' !in fileName
    ensures LookupIn(mappings, Some(fileName)).None?
  {
  }

  /** Every "text/" type and every explicit type is textual; null never is. */
  lemma TextualTypes(textMimeTypes: set<string>, m: string)
    ensures "text/" <= m ==> IsTextual(textMimeTypes, Some(m))
    ensures IsTextual(textMimeTypes + {m}, Some(m))
    ensures !IsTextual(textMimeTypes, None)
    ensures !("text/" <= m) && m !in textMimeTypes ==> !IsTextual(textMimeTypes, Some(m))
  {
  }
}
