/**
 * File-name helpers the tool takes from Node's `path` module and from
 * `String.prototype.toLowerCase`: the extension of a name, its lower-cased
 * form, and the extension filter used by the scanner and by the worker.
 */
module PathNames {
  import opened Types

  /** Position of the last '.' in `name`, or -1 when it has none. */
  function LastDot(name: string): (k: int)
    ensures -1 <= k < |name|
    ensures k >= 0 ==> name[k] == '.'
    ensures forall j :: k < j < |name| ==> name[j] != '.'
  {
    if name == [] then -1
    else if name[|name| - 1] == '.' then |name| - 1
    else LastDot(name[..|name| - 1])
  }

  /**
   * `extname` of a single path component: the suffix that starts at the
   * last '.', except that a name without a dot, a name whose only dot
   * leads it (".next", ".png") and the name ".." have no extension.
   */
  function ExtOfName(name: string): string
  {
    var d := LastDot(name);
    if d <= 0 || name == ".." then [] else name[d..]
  }

  /**
   * What `extname` returns, without reference to how it scans: a name has
   * an extension exactly when it is not ".." and has a '.' after its first
   * character, and the extension is then the suffix from the last '.'.
   */
  lemma ExtOfNameCharacterised(name: string)
    ensures var ext := ExtOfName(name);
      && (ext != [] <==> name != ".." && exists j :: 0 < j < |name| && name[j] == '.')
      && (ext != [] ==> ext[0] == '.' && |ext| <= |name| && ext == name[|name| - |ext|..])
      && (forall j :: 0 < j < |ext| ==> ext[j] != '.')
  {
    var d := LastDot(name);
    if d > 0 && name != ".." {
      assert name[d..][0] == '.';
    }
  }

  /** `extname` of a whole path: that of its last component. */
  function Extname(p: Path): string
  {
    if p == [] then [] else ExtOfName(p[|p| - 1])
  }

  /** Lower-casing of one character (ASCII letters only). */
  function LowerChar(c: char): char
  {
    if 'A' <= c <= 'Z' then (c as int + 32) as char else c
  }

  /** `toLowerCase`, character by character. */
  function Lower(s: string): string
  {
    seq(|s|, i requires 0 <= i < |s| => LowerChar(s[i]))
  }

  /** The filter both the scanner and the worker apply to a file name. */
  predicate NameAccepted(name: string, extensions: seq<string>)
  {
    Lower(ExtOfName(name)) in extensions
  }

  /** The filter the worker applies to the path it is given. */
  predicate PathAccepted(p: Path, extensions: seq<string>)
  {
    Lower(Extname(p)) in extensions
  }

  /** A path built by joining a directory and an entry name passes the worker's filter exactly when the name passes the scanner's. */
  lemma JoinedPathAccepted(dir: Path, name: string, extensions: seq<string>)
    ensures PathAccepted(dir + [name], extensions) <==> NameAccepted(name, extensions)
  {
    assert (dir + [name])[|dir + [name]| - 1] == name;
  }
}
