/**
 * Path text as both sides of the program see it: `path.basename` on the
 * desktop side, `PathBuf::join` and `Path::extension` on the plugin side.
 * Paths are strings with '/' as the only separator.
 */
module Paths {
  import opened Wrappers

  /** The text after the last '/' of `p` (all of `p` when it has none). */
  function Basename(p: string): (r: string)
    ensures |r| <= |p|
    ensures r == [] <==> p == [] || p[|p| - 1] == '/'
  {
    if p == [] || p[|p| - 1] == '/' then []
    else Basename(p[..|p| - 1]) + [p[|p| - 1]]
  }

  /** A '/'-free suffix of `p` that is all of `p` or follows a '/'. */
  predicate IsLastComponent(p: string, s: string)
  {
    && '/' !in s
    && |s| <= |p| && s == p[|p| - |s|..]
    && (|s| < |p| ==> p[|p| - |s| - 1] == '/')
  }

  /** Basename gives the last component of a path. */
  lemma {:induction false} BasenameIsLastComponent(p: string)
    ensures IsLastComponent(p, Basename(p))
  {
    if p != [] && p[|p| - 1] != '/' {
      var init, c := p[..|p| - 1], p[|p| - 1];
      var ri := Basename(init);
      BasenameIsLastComponent(init);
      var r := ri + [c];
      assert Basename(p) == r;
      var n := |init| - |ri|;
      assert |p| - |r| == n && init[n..] == ri;
      assert p == init + [c];
      assert p[n..] == init[n..] + [c];
      if n > 0 {
        assert p[n - 1] == init[n - 1] == '/';
      }
      assert '/' !in r;
    }
  }

  /** A path has only one last component, so that is what Basename returns. */
  lemma BasenameUnique(p: string, s: string)
    requires IsLastComponent(p, s)
    ensures Basename(p) == s
  {
    BasenameIsLastComponent(p);
    var r := Basename(p);
    if |r| > |s| {
      assert false;
    } else if |r| < |s| {
      assert false;
    }
  }

  /**
   * `PathBuf::join` of a relative name on Unix: a separator is inserted only
   * when `dir` is non-empty and does not already end in one.
   */
  function Join(dir: string, name: string): (r: string)
    ensures |dir| <= |r| && r[..|dir|] == dir
    ensures '/' !in name ==> IsLastComponent(r, name)
  {
    if dir == [] || dir[|dir| - 1] == '/' then dir + name else dir + "/" + name
  }

  /** Joining a plain file name gives a path whose basename is that name. */
  lemma BasenameOfJoin(dir: string, name: string)
    requires '/' !in name
    ensures Basename(Join(dir, name)) == name
  {
    BasenameUnique(Join(dir, name), name);
  }

  /** Index of the last '.' in `s`, if any. */
  function LastDot(s: string): (r: Option<nat>)
    ensures r.None? <==> '.' !in s
    ensures r.Some? ==> r.value < |s| && s[r.value] == '.' && '.' !in s[r.value + 1..]
  {
    if s == [] then None
    else if s[|s| - 1] == '.' then Some(|s| - 1)
    else
      match LastDot(s[..|s| - 1])
      case None => None
      case Some(i) =>
        assert s[i + 1..] == s[..|s| - 1][i + 1..] + [s[|s| - 1]];
        Some(i)
  }

  /**
   * `Path::extension` of a file name: the text after its final '.', or none
   * when the name has no '.', when the only '.' leads the name (".gguf"), or
   * for the parent entry "..".
   */
  function Extension(name: string): (r: Option<string>)
    ensures r.Some? <==> name != ".." && exists i :: 0 < i < |name| && name[i] == '.'
    ensures r.Some? ==>
      var k := |name| - |r.value| - 1;
      0 < k && name[k] == '.' && r.value == name[k + 1..] && '.' !in r.value
  {
    if name == ".." then None
    else
      match LastDot(name)
      case None => None
      case Some(i) => if i == 0 then None else Some(name[i + 1..])
  }

  /**
   * What `list_available_gguf_models` keeps: the file name's extension is
   * exactly "gguf", that is, the file name ends in ".gguf" after at least one
   * character.
   */
  predicate HasGgufExtension(p: string)
    ensures HasGgufExtension(p) <==> var b := Basename(p); |b| > 5 && b[|b| - 5..] == ".gguf"
  {
    GgufExtensionIsSuffix(Basename(p));
    Extension(Basename(p)) == Some("gguf")
  }

  /** A name has extension "gguf" exactly when it ends in ".gguf" after at least one character. */
  lemma GgufExtensionIsSuffix(name: string)
    ensures Extension(name) == Some("gguf") <==> |name| > 5 && name[|name| - 5..] == ".gguf"
  {
    var e := Extension(name);
    if e == Some("gguf") {
      var k := |name| - 5;
      assert name[k] == '.' && name[k + 1..] == "gguf";
      assert name[k..] == [name[k]] + name[k + 1..];
    }
    if |name| > 5 && name[|name| - 5..] == ".gguf" {
      var i := |name| - 5;
      assert name[i..][0] == '.';
      assert 0 < i < |name| && name[i] == '.';
      assert name[i + 1..] == name[i..][1..];
    }
  }

  /** The file name "llm.gguf" has the extension "gguf". */
  lemma LlmGgufExtension()
    ensures Extension("llm.gguf") == Some("gguf")
  {
    var s := "llm.gguf";
    assert s[3] == '.';
    var d := LastDot(s);
    assert d.Some?;
    assert d.value == 3 by {
      if d.value < 3 { assert false; }
    }
  }

  /** No GGUF file is named "default", the panel's sentinel: it has no '.'. */
  lemma GgufNameIsNotDefault(p: string)
    requires HasGgufExtension(p)
    ensures Basename(p) != "default"
  {
  }
}
