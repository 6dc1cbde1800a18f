/** The two `std::path::Path` accessors the scanner relies on, applied to a
    file name: `file_stem` and `extension`. The name is split at its last
    dot, except that a name whose only dot is its first character, and the
    name "..", have no extension. */
module Paths {
  import opened Common

  /** Index of the last '.' in `name`. */
  function LastDot(name: string): (r: Option<nat>)
    ensures r.Some? ==> r.value < |name| && name[r.value] == '.'
    ensures r.Some? ==> forall k :: r.value < k < |name| ==> name[k] != '.'
    ensures r.None? ==> forall k :: 0 <= k < |name| ==> name[k] != '.'
  {
    if name == [] then None
    else if name[|name| - 1] == '.' then Some(|name| - 1)
    else LastDot(name[..|name| - 1])
  }

  /** `Path::file_stem` of a file name. */
  function FileStem(name: string): string {
    var dot := LastDot(name);
    if name == ".." || dot.None? || dot.value == 0 then name else name[..dot.value]
  }

  /** `Path::extension` of a file name: the text after the last dot, unless
      that dot leads the name. */
  function Extension(name: string): Option<string> {
    var dot := LastDot(name);
    if name == ".." || dot.None? || dot.value == 0 then None
    else Some(name[dot.value + 1..])
  }

  /** When an extension is present, the stem, a dot and the extension
      spell the name again, and the extension has no dot; it is absent
      exactly for ".." and for names with no dot after the first character,
      and then the stem is the whole name. */
  lemma ExtensionSplits(name: string)
    ensures Extension(name).Some? ==> FileStem(name) != [] && FileStem(name) + "." + Extension(name).value == name
    ensures Extension(name).Some? ==> forall k :: 0 <= k < |Extension(name).value| ==> Extension(name).value[k] != '.'
    ensures Extension(name).None? ==> FileStem(name) == name
    ensures Extension(name).None? <==> name == ".." || (forall k :: 0 < k < |name| ==> name[k] != '.')
  {
    var dot := LastDot(name);
    if !(name == ".." || dot.None? || dot.value == 0) {
      assert name == name[..dot.value] + "." + name[dot.value + 1..];
    }
  }
}
