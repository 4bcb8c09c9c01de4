/** Option and Result, used for the framework calls that may fail or return nothing. */
module Wrappers {
  datatype Option<+T> = None | Some(value: T)

  datatype Result<+T, +E> = Success(value: T) | Failure(error: E)
}

/**
 * File URLs reduced to their path strings, and the few operations the core
 * applies to them: `appendingPathComponent`, `lastPathComponent`,
 * `pathExtension`, and ASCII `uppercased`/`lowercased`.
 */
module Paths {

  type Path = string

  /** `URL.appendingPathComponent(component).path` for a directory path `dir`. */
  function Join(dir: Path, component: string): (r: Path)
    ensures dir <= r && |dir| + |component| <= |r|
  {
    if |dir| > 0 && dir[|dir| - 1] == '/' then dir + component else dir + "/" + component
  }

  /** `URL.lastPathComponent`: everything after the last `/`. */
  function LastComponent(p: Path): (r: string)
    ensures '/' !in r
    decreases |p|
  {
    if |p| == 0 || p[|p| - 1] == '/' then ""
    else LastComponent(p[..|p| - 1]) + [p[|p| - 1]]
  }

  /** The text after the last `.` of a name, or "" when the name has no `.`. */
  function AfterLastDot(name: string): (r: string)
    ensures '.' !in r
    ensures '/' !in name ==> '/' !in r
    decreases |name|
  {
    if '.' !in name || name[|name| - 1] == '.' then ""
    else AfterLastDot(name[..|name| - 1]) + [name[|name| - 1]]
  }

  /** `URL.pathExtension`. */
  function Extension(p: Path): (r: string)
    ensures '.' !in r && '/' !in r
  {
    var name := LastComponent(p);
    AfterLastDot(name)
  }

  function UpperChar(c: char): char {
    if 'a' <= c <= 'z' then (c as int - 32) as char else c
  }

  function LowerChar(c: char): char {
    if 'A' <= c <= 'Z' then (c as int + 32) as char else c
  }

  /** `String.uppercased()` restricted to ASCII letters. */
  function Upper(s: string): (r: string)
    ensures |r| == |s|
    ensures forall i :: 0 <= i < |s| ==> !('a' <= r[i] <= 'z')
    ensures forall i :: 0 <= i < |s| && !('a' <= s[i] <= 'z') ==> r[i] == s[i]
  {
    seq(|s|, i requires 0 <= i < |s| => UpperChar(s[i]))
  }

  /** `String.lowercased()` restricted to ASCII letters. */
  function Lower(s: string): (r: string)
    ensures |r| == |s|
    ensures forall i :: 0 <= i < |s| ==> !('A' <= r[i] <= 'Z')
    ensures forall i :: 0 <= i < |s| && !('A' <= s[i] <= 'Z') ==> r[i] == s[i]
  {
    seq(|s|, i requires 0 <= i < |s| => LowerChar(s[i]))
  }

  /** The transport-stream test of the fixed stream directories: the extension uppercases to "MTS". */
  predicate IsTransportStream(p: Path) {
    Upper(Extension(p)) == "MTS"
  }

  /** The container test of the recursive walk: the extension lowercases to "mp4" or "mov". */
  predicate IsContainerVideo(p: Path) {
    var ext := Lower(Extension(p));
    ext == "mp4" || ext == "mov"
  }

  /** A lower-case spelling: ASCII lower-case letters and digits only. */
  predicate IsLowerWord(word: string) {
    forall i :: 0 <= i < |word| ==> 'a' <= word[i] <= 'z' || '0' <= word[i] <= '9'
  }

  /** `s` spells `word` (given in lower case) in any mix of upper and lower case letters. */
  predicate SpelledIgnoringCase(s: string, word: string) {
    |s| == |word| &&
    forall i :: 0 <= i < |s| ==> s[i] == word[i] || ('a' <= word[i] <= 'z' && s[i] == (word[i] as int - 32) as char)
  }

  /** Upper-casing maps `s` onto the upper-cased `word` exactly when `s` spells `word` ignoring case. */
  lemma UpperMatchesIgnoringCase(s: string, word: string)
    requires IsLowerWord(word)
    ensures Upper(s) == Upper(word) <==> SpelledIgnoringCase(s, word)
  {
    if Upper(s) == Upper(word) {
      assert |s| == |Upper(s)| == |Upper(word)| == |word|;
      forall i | 0 <= i < |s|
        ensures s[i] == word[i] || ('a' <= word[i] <= 'z' && s[i] == (word[i] as int - 32) as char)
      {
        assert Upper(s)[i] == Upper(word)[i];
      }
    }
    if SpelledIgnoringCase(s, word) {
      assert forall i :: 0 <= i < |s| ==> Upper(s)[i] == Upper(word)[i];
    }
  }

  /** Lower-casing maps `s` onto `word` exactly when `s` spells `word` ignoring case. */
  lemma LowerMatchesIgnoringCase(s: string, word: string)
    requires IsLowerWord(word)
    ensures Lower(s) == word <==> SpelledIgnoringCase(s, word)
  {
    if Lower(s) == word {
      forall i | 0 <= i < |s|
        ensures s[i] == word[i] || ('a' <= word[i] <= 'z' && s[i] == (word[i] as int - 32) as char)
      {
        assert LowerChar(s[i]) == word[i];
      }
    }
    if SpelledIgnoringCase(s, word) {
      assert forall i :: 0 <= i < |s| ==> Lower(s)[i] == word[i];
    }
  }

  /** The transport-stream test accepts exactly the case variants of "mts" (`.MTS`, `.mts`, `.Mts`, ...). */
  lemma TransportStreamIgnoresCase(p: Path)
    ensures IsTransportStream(p) <==> SpelledIgnoringCase(Extension(p), "mts")
  {
    assert Upper("mts") == "MTS";
    UpperMatchesIgnoringCase(Extension(p), "mts");
  }

  /** The container test accepts exactly the case variants of "mp4" and "mov" (`.MP4`, `.Mov`, ...). */
  lemma ContainerVideoIgnoresCase(p: Path)
    ensures IsContainerVideo(p) <==> SpelledIgnoringCase(Extension(p), "mp4") || SpelledIgnoringCase(Extension(p), "mov")
  {
    LowerMatchesIgnoringCase(Extension(p), "mp4");
    LowerMatchesIgnoringCase(Extension(p), "mov");
  }

  /** The three accepted extensions exclude one another: a file is never both a stream and a container. */
  lemma StreamAndContainerDisjoint(p: Path)
    ensures !(IsTransportStream(p) && IsContainerVideo(p))
  {
    TransportStreamIgnoresCase(p);
    ContainerVideoIgnoresCase(p);
    if IsTransportStream(p) {
      var e := Extension(p);
      assert e[1] == 't' || e[1] == 'T';
      assert !SpelledIgnoringCase(e, "mp4") && !SpelledIgnoringCase(e, "mov");
    }
  }
}
