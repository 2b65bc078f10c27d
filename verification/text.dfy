/** The few operations of Go's strings and path/filepath packages that the driver applies to identifiers. */
module Text {

  /** strings.Split for a one-character separator. */
  function Split(s: string, sep: char): (parts: seq<string>)
    ensures |parts| >= 1
    ensures forall i :: 0 <= i < |parts| ==> sep !in parts[i]
    ensures Join(parts, sep) == s
  {
    if s == "" then [""]
    else
      var rest := Split(s[1..], sep);
      if s[0] == sep then [""] + rest else [[s[0]] + rest[0]] + rest[1..]
  }

  /** strings.Join for a one-character separator. */
  function Join(parts: seq<string>, sep: char): string {
    if parts == [] then ""
    else if |parts| == 1 then parts[0]
    else parts[0] + [sep] + Join(parts[1..], sep)
  }

  lemma {:induction false} SplitConcat(a: string, b: string, sep: char)
    ensures Split(a + [sep] + b, sep) == Split(a, sep) + Split(b, sep)
  {
    var s := a + [sep] + b;
    if a == "" {
      assert s[1..] == b;
    } else {
      assert s[1..] == a[1..] + [sep] + b;
      SplitConcat(a[1..], b, sep);
    }
  }

  lemma {:induction false} SplitWithoutSeparator(a: string, sep: char)
    requires sep !in a
    ensures Split(a, sep) == [a]
  {
    if a != "" {
      SplitWithoutSeparator(a[1..], sep);
      assert [a[0]] + a[1..] == a;
    }
  }

  lemma SplitAfterSeparator(a: string, b: string, sep: char)
    requires sep !in a
    ensures Split(a + [sep] + b, sep) == [a] + Split(b, sep)
  {
    SplitConcat(a, b, sep);
    SplitWithoutSeparator(a, sep);
  }

  lemma SplitOnce(a: string, sep: char)
    ensures |Split(a, sep)| == 1 <==> sep !in a
  {
    if sep !in a {
      SplitWithoutSeparator(a, sep);
    }
  }

  /** What comes before the last part, and the last part. */
  lemma {:induction false} JoinLast(parts: seq<string>, sep: char)
    requires |parts| >= 2
    ensures Join(parts, sep) == Join(parts[..|parts| - 1], sep) + [sep] + parts[|parts| - 1]
  {
    var front, rest := parts[..|parts| - 1], parts[1..];
    if |parts| > 2 {
      JoinLast(rest, sep);
      assert front[1..] == rest[..|rest| - 1];
    }
  }

  /** The path components filepath.Clean keeps; `kept` is what it has kept so far. */
  function CleanParts(rooted: bool, kept: seq<string>, todo: seq<string>): seq<string>
    decreases |todo|
  {
    if todo == [] then kept
    else
      var part, rest := todo[0], todo[1..];
      if part == "" || part == "." then CleanParts(rooted, kept, rest)
      else if part != ".." then CleanParts(rooted, kept + [part], rest)
      else if kept != [] && kept[|kept| - 1] != ".." then CleanParts(rooted, kept[..|kept| - 1], rest)
      else if rooted then CleanParts(rooted, kept, rest)
      else CleanParts(rooted, kept + [part], rest)
  }

  /** filepath.Clean. */
  function Clean(path: string): string {
    var rooted := path != "" && path[0] == '/';
    var body := Join(CleanParts(rooted, [], Split(path, '/')), '/');
    if rooted then "/" + body else if body == "" then "." else body
  }

  /** The part of a path up to and including its last slash. */
  function UpToLastSlash(path: string): (u: string)
    ensures u <= path
  {
    if path == "" || path[|path| - 1] == '/' then path else UpToLastSlash(path[..|path| - 1])
  }

  /** filepath.Dir. */
  function Dir(path: string): string {
    Clean(UpToLastSlash(path))
  }

  /** filepath.Join for two elements, the first not empty. */
  function JoinPath(dir: string, name: string): string
    requires dir != ""
  {
    if name == "" then Clean(dir) else Clean(dir + "/" + name)
  }

  lemma {:induction false} UpToLastSlashOf(dir: string, name: string)
    requires '/' !in name
    ensures UpToLastSlash(dir + "/" + name) == dir + "/"
  {
    var path := dir + "/" + name;
    if name == "" {
      assert path == dir + "/";
    } else {
      var shorter := name[..|name| - 1];
      assert path[..|path| - 1] == dir + "/" + shorter;
      UpToLastSlashOf(dir, shorter);
    }
  }

  /** strings.HasPrefix. */
  predicate HasPrefix(s: string, prefix: string) {
    prefix <= s
  }
}
