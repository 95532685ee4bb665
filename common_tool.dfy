/** CommonTool: path resolution against a plugin's directory, the supported
    image-extension test and directory-separator normalisation. The
    `System.IO.Path` primitives are platform-defined and enter as fields of
    `Platform`. */
module CommonTool {
  import opened Common

  /** The platform facts the path helpers read. */
  datatype Platform = Platform(
    isPathRooted: string -> bool,          // Path.IsPathRooted
    combine: (string, string) -> string,   // Path.Combine
    getExtension: string -> string,        // Path.GetExtension
    directorySeparatorChar: char,          // Path.DirectorySeparatorChar
    mainPluginDir: Option<string>,         // directory of the executing assembly, possibly null
    appBaseDirectory: string)              // AppContext.BaseDirectory

  /** The directory a relative path is resolved against: the source assembly's
      directory when an assembly is given, the main plugin's directory
      otherwise, and `AppContext.BaseDirectory` when the chosen one is null. */
  function BaseDirectory(source: Option<Assembly>, p: Platform): (d: string)
    ensures source.Some? && source.value.directory.Some? ==> d == source.value.directory.value
    ensures source.Some? && source.value.directory.None? ==> d == p.appBaseDirectory
    ensures source.None? && p.mainPluginDir.Some? ==> d == p.mainPluginDir.value
    ensures source.None? && p.mainPluginDir.None? ==> d == p.appBaseDirectory
  {
    var baseDir := if source.Some? then source.value.directory else p.mainPluginDir;
    if baseDir.Some? then baseDir.value else p.appBaseDirectory
  }

  /** A rooted path is returned as it is; any other path is combined with
      the base directory. */
  function GetAbsolutePath(relativePath: string, source: Option<Assembly>, p: Platform): (r: string)
    ensures p.isPathRooted(relativePath) ==> r == relativePath
    ensures !p.isPathRooted(relativePath) ==> r == p.combine(BaseDirectory(source, p), relativePath)
  {
    if p.isPathRooted(relativePath) then relativePath
    else p.combine(BaseDirectory(source, p), relativePath)
  }

  /** On a platform where combining a rooted directory with anything gives a
      rooted path, and whose base directories are rooted, resolving a path
      twice gives what resolving it once gave: rewriting paths that were
      already rewritten is harmless. */
  lemma GetAbsolutePathIdempotent(relativePath: string, source: Option<Assembly>, p: Platform)
    requires forall dir, rel :: p.isPathRooted(dir) ==> p.isPathRooted(p.combine(dir, rel))
    requires p.isPathRooted(BaseDirectory(source, p))
    ensures p.isPathRooted(GetAbsolutePath(relativePath, source, p))
    ensures GetAbsolutePath(GetAbsolutePath(relativePath, source, p), source, p)
            == GetAbsolutePath(relativePath, source, p)
  {
  }

  const ImageExtensions: set<string> := {".png", ".jpg", ".jpeg"}

  /** False for an empty path; otherwise true exactly when the extension,
      lower-cased, is one of `.png`, `.jpg`, `.jpeg`. */
  function IsSupportedImage(path: string, p: Platform): (r: bool)
    ensures path == "" ==> !r
    ensures path != "" ==> (r <==> Lower(p.getExtension(path)) in ImageExtensions)
  {
    if path == "" then false
    else
      var ext := Lower(p.getExtension(path));
      ext == ".png" || ext == ".jpg" || ext == ".jpeg"
  }

  /** Extensions are compared without regard to ASCII case: two paths whose
      extensions differ only in case are both supported or both not. */
  lemma IsSupportedImageIgnoresCase(path1: string, path2: string, p: Platform)
    requires path1 != "" && path2 != ""
    requires EqualsIgnoreCase(p.getExtension(path1), p.getExtension(path2))
    ensures IsSupportedImage(path1, p) == IsSupportedImage(path2, p)
  {
    var e1, e2 := p.getExtension(path1), p.getExtension(path2);
    EqualsIgnoreCaseCharwise(e1, e2);
    assert Lower(e1) == Lower(e2) by {
      forall i | 0 <= i < |e1| ensures Lower(e1)[i] == Lower(e2)[i] {
        LowerAgreesWithUpper(e1[i], e2[i]);
      }
    }
  }

  /** Two characters with the same upper-case fold have the same lower-case
      mapping. */
  lemma LowerAgreesWithUpper(a: char, b: char)
    requires UpperChar(a) == UpperChar(b)
    ensures LowerChar(a) == LowerChar(b)
  {
  }

  function SeparatorChar(sep: char, c: char): char {
    if c == '\\' || c == '/' then sep else c
  }

  /** An empty path is returned as it is; otherwise every `\` and every `/`
      becomes the platform's directory separator and nothing else changes. */
  function NormalizePath(path: string, p: Platform): (r: string)
    ensures |r| == |path|
    ensures forall i :: 0 <= i < |path| && (path[i] == '\\' || path[i] == '/') ==>
              r[i] == p.directorySeparatorChar
    ensures forall i :: 0 <= i < |path| && path[i] != '\\' && path[i] != '/' ==> r[i] == path[i]
  {
    if path == "" then path
    else MapChars(c => SeparatorChar(p.directorySeparatorChar, c), path)
  }

  /** Normalising a normalised path changes nothing. */
  lemma NormalizePathIdempotent(path: string, p: Platform)
    ensures NormalizePath(NormalizePath(path, p), p) == NormalizePath(path, p)
  {
    var sep := p.directorySeparatorChar;
    if path != "" {
      MapCharsIdempotent(c => SeparatorChar(sep, c), path);
    }
  }

  /** After normalisation the only separator character left is the platform's
      own. */
  lemma NormalizePathSeparators(path: string, p: Platform, i: int)
    requires 0 <= i < |path|
    requires NormalizePath(path, p)[i] == '\\' || NormalizePath(path, p)[i] == '/'
    ensures NormalizePath(path, p)[i] == p.directorySeparatorChar
  {
  }
}
