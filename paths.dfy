/** File paths and object keys: `get_key_name`, the `-p` prefix option, and the
    `os.path` helpers the uploader calls. The platform separator `os.sep` is the
    parameter `sep`. */
module Paths {
  import opened Wrappers
  import opened Text

  /** Exceptions the path handling can raise. */
  datatype PathError = IndexError

  /** The prefix used when no `-p` option is given. It is `/` whatever `os.sep` is. */
  const DefaultPrefix: string := "/"

  /** `s[n:]` in Python: empty when `n` is past the end. */
  function Drop(s: string, n: nat): (r: string)
    ensures |r| == if n <= |s| then |s| - n else 0
    ensures n <= |s| ==> r == s[n..]
  {
    if n <= |s| then s[n..] else []
  }

  /** `get_key_name(fullpath, prefix)`: drop the first `len(prefix)` characters, split
      what is left on `os.sep` and join the parts with `/`. Only the LENGTH of the
      prefix is used; the characters are never compared. */
  function GetKeyName(fullpath: string, prefix: string, sep: char): (key: string)
    ensures |key| == if |prefix| <= |fullpath| then |fullpath| - |prefix| else 0
    ensures forall i :: 0 <= i < |key| ==>
      key[i] == (if fullpath[|prefix| + i] == sep then '/' else fullpath[|prefix| + i])
  {
    var rest := Drop(fullpath, |prefix|);
    JoinSplit(rest, sep, '/');
    Join(Split(rest, sep), '/')
  }

  /** When the path really starts with the prefix, the key is the remainder after it
      with separators rewritten, and with `/` as separator the prefix and the key
      put back together give the path again. */
  lemma {:induction false} KeyNameAfterPrefix(fullpath: string, prefix: string, sep: char)
    requires StartsWith(fullpath, prefix)
    ensures GetKeyName(fullpath, prefix, sep) == ReplaceAll(fullpath[|prefix|..], sep, '/')
    ensures sep == '/' ==> prefix + GetKeyName(fullpath, prefix, sep) == fullpath
  {
    var key := GetKeyName(fullpath, prefix, sep);
    var rest := fullpath[|prefix|..];
    assert key == ReplaceAll(rest, sep, '/');
    if sep == '/' {
      assert key == rest;
      assert fullpath == fullpath[..|prefix|] + rest;
    }
  }

  /** On a platform whose separator is not `/`, no key ever holds the separator. */
  lemma KeyNameHasNoSeparator(fullpath: string, prefix: string, sep: char)
    requires sep != '/'
    ensures sep !in GetKeyName(fullpath, prefix, sep)
  {
  }

  /** The example of the usage text, as the code computes it: the key has no leading
      `/`, unlike the `/bar/fie.baz` the text announces. */
  lemma UsageExampleKey()
    ensures GetKeyName("/home/foo/bar/fie.baz", "/home/foo/", '/') == "bar/fie.baz"
    ensures GetKeyName("/home/foo/bar/fie.baz", "/home/foo/", '/') != "/bar/fie.baz"
  {
    KeyNameAfterPrefix("/home/foo/bar/fie.baz", "/home/foo/", '/');
    assert "/home/foo/bar/fie.baz"[10..] == "bar/fie.baz";
  }

  /** The `-p` handling: add `os.sep` unless the argument already ends with it. An empty
      argument fails at `prefix[-1]` with an IndexError. */
  function NormalizePrefix(arg: string, sep: char): (r: Result<string, PathError>)
    ensures r.Err? <==> arg == []
    ensures r.Ok? ==> r.value != [] && r.value[|r.value| - 1] == sep
    ensures r.Ok? ==> r.value == arg || r.value == arg + [sep]
    ensures r.Ok? ==> StartsWith(r.value, arg) && |r.value| <= |arg| + 1
  {
    if arg == [] then Err(IndexError)
    else if arg[|arg| - 1] != sep then Ok(arg + [sep])
    else Ok(arg)
  }

  /** Normalising is idempotent, and leaves an already terminated prefix unchanged. */
  lemma NormalizePrefixIdempotent(arg: string, sep: char)
    requires arg != []
    ensures NormalizePrefix(NormalizePrefix(arg, sep).value, sep) == NormalizePrefix(arg, sep)
    ensures arg[|arg| - 1] == sep ==> NormalizePrefix(arg, sep) == Ok(arg)
  {
  }

  /** The prefix `main` ends up with, given the arguments of the `-p` options in the
      order they appear: the default when there is none, otherwise each one replaces
      the previous after normalisation, and the first empty one raises. */
  method ResolvePrefix(prefixArgs: seq<string>, sep: char) returns (r: Result<string, PathError>)
    ensures prefixArgs == [] ==> r == Ok(DefaultPrefix)
    ensures r.Err? <==> exists i :: 0 <= i < |prefixArgs| && prefixArgs[i] == []
    ensures r.Ok? && prefixArgs != [] ==> r == NormalizePrefix(prefixArgs[|prefixArgs| - 1], sep)
    ensures r.Ok? && prefixArgs != [] ==> r.value[|r.value| - 1] == sep
  {
    var prefix := DefaultPrefix;
    for i := 0 to |prefixArgs|
      invariant forall j :: 0 <= j < i ==> prefixArgs[j] != []
      invariant i == 0 ==> prefix == DefaultPrefix
      invariant i > 0 ==> Ok(prefix) == NormalizePrefix(prefixArgs[i - 1], sep)
    {
      var a := prefixArgs[i];
      if a == [] {
        return Err(IndexError);
      }
      prefix := a;
      if prefix[|prefix| - 1] != sep {
        prefix := prefix + [sep];
      }
    }
    return Ok(prefix);
  }

  /** `os.path.join(a, b)` with the POSIX rules: an absolute `b` replaces `a`; otherwise
      a separator is inserted unless `a` is empty or already ends with one. */
  function PathJoin(a: string, b: string, sep: char): (r: string)
    ensures StartsWith(b, [sep]) ==> r == b
    ensures !StartsWith(b, [sep]) ==> EndsWith(r, b) && StartsWith(r, a)
    ensures !StartsWith(b, [sep]) ==>
      |r| >= |a| + |b| && r[|a|..|r| - |b|] == (if a == [] || a[|a| - 1] == sep then [] else [sep])
  {
    if StartsWith(b, [sep]) then b
    else if a == [] || a[|a| - 1] == sep then a + b
    else a + [sep] + b
  }

  /** `os.path.split(p)[1]`: what follows the last separator. */
  function Basename(p: string, sep: char): (r: string)
    ensures sep !in r
    ensures EndsWith(p, r)
    ensures |r| < |p| ==> p[|p| - |r| - 1] == sep
  {
    if p == [] || p[|p| - 1] == sep then []
    else
      var r := Basename(p[..|p| - 1], sep) + [p[|p| - 1]];
      assert p[|p| - |r|..] == p[..|p| - 1][|p| - |r|..] + [p[|p| - 1]];
      r
  }

  /** A separator-free tail after an empty head or a head ending in a separator is
      exactly what `Basename` returns. */
  lemma {:induction false} BasenameAfterSeparator(head: string, name: string, sep: char)
    requires head == [] || head[|head| - 1] == sep
    requires sep !in name
    ensures Basename(head + name, sep) == name
  {
    if name != [] {
      var p := head + name;
      var init := name[..|name| - 1];
      assert p[..|p| - 1] == head + init;
      BasenameAfterSeparator(head, init, sep);
      assert name == init + [name[|name| - 1]];
    }
  }

  /** The base name of a joined path is the name that was joined, which is why single-file
      mode's key agrees with the file name directory mode reports. */
  lemma BasenameOfJoin(dir: string, name: string, sep: char)
    requires name != [] && sep !in name
    ensures Basename(PathJoin(dir, name, sep), sep) == name
  {
    assert !StartsWith(name, [sep]) by { assert name[0] != sep; }
    if dir == [] || dir[|dir| - 1] == sep {
      BasenameAfterSeparator(dir, name, sep);
    } else {
      BasenameAfterSeparator(dir + [sep], name, sep);
      assert dir + [sep] + name == (dir + [sep]) + name;
    }
  }
}
