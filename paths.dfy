/** The path tests the directory walk and the file loader apply
    (filepath.Ext and strings.Contains on the visited path). */
module Paths {

  /** filepath.Ext: the suffix from the last '.' of the final path element, or "". */
  function Ext(path: string): string {
    ExtBefore(path, |path|)
  }

  function ExtBefore(path: string, i: nat): (ext: string)
    requires i <= |path|
    ensures ext == "" || exists j | 0 <= j < i :: path[j] == '.' && ext == path[j..]
    decreases i
  {
    if i == 0 then ""
    else if path[i - 1] == '/' then ""
    else if path[i - 1] == '.' then path[i - 1..]
    else ExtBefore(path, i - 1)
  }

  /** strings.Contains */
  predicate Contains(s: string, sub: string) {
    exists i | 0 <= i <= |s| - |sub| :: OccursAt(s, sub, i)
  }

  predicate OccursAt(s: string, sub: string, i: nat) {
    i + |sub| <= |s| && s[i..i + |sub|] == sub
  }

  /** The test on each entry the directory walk visits: a regular file, outside
      any `.terraform/` directory, with extension `.tf`. */
  predicate WalkSelects(path: string, isDir: bool) {
    !isDir && !Contains(path, ".terraform/") && Ext(path) == ".tf"
  }

  /** A path has extension ".tf" exactly when it ends in ".tf". */
  lemma TfExtension(path: string)
    ensures Ext(path) == ".tf" <==> |path| >= 3 && path[|path| - 3..] == ".tf"
  {
    var n := |path|;
    if n >= 3 && path[n - 3..] == ".tf" {
      assert path[n - 1] == 'f' && path[n - 2] == 't' && path[n - 3] == '.';
      assert Ext(path) == ExtBefore(path, n - 1) == ExtBefore(path, n - 2);
      assert ExtBefore(path, n - 2) == path[n - 3..];
    }
    if Ext(path) == ".tf" {
      var j :| 0 <= j < n && path[j] == '.' && ".tf" == path[j..];
      assert |path[j..]| == 3;
    }
  }

  /** Whatever its extension, a path inside a `.terraform/` directory is never parsed by the walk. */
  lemma ToolStateSkipped(prefix: string, suffix: string, isDir: bool)
    ensures !WalkSelects(prefix + ".terraform/" + suffix, isDir)
  {
    var p := prefix + ".terraform/" + suffix;
    assert OccursAt(p, ".terraform/", |prefix|);
  }
}
