/**
  Language resolution and the file filter (app/language_map.py): a
  case-insensitive extension-to-language table, and the decision whether a
  path is worth analysing, made from its last suffix, its directories and one
  Flutter-specific exclusion. Paths use the POSIX separator '/'.
 */
module LanguageMap {
  import opened Wrappers
  import opened Text
  import opened PyStr

  /** The extension table: extension (with its dot, lower-case) to language tag. */
  function LangMap(key: string): Option<string>
  {
    match key
    case ".c" => Some("c")
    case ".cpp" => Some("cpp")
    case ".cc" => Some("cpp")
    case ".cxx" => Some("cpp")
    case ".c++" => Some("cpp")
    case ".h" => Some("cpp")
    case ".hpp" => Some("cpp")
    case ".hxx" => Some("cpp")
    case ".java" => Some("java")
    case ".cs" => Some("csharp")
    case ".m" => Some("objectivec")
    case ".mm" => Some("objectivec")
    case ".swift" => Some("swift")
    case ".py" => Some("python")
    case ".pyx" => Some("python")
    case ".pyd" => Some("python")
    case ".pyi" => Some("python")
    case ".js" => Some("javascript")
    case ".jsx" => Some("javascript")
    case ".mjs" => Some("javascript")
    case ".ts" => Some("typescript")
    case ".tsx" => Some("typescript")
    case ".d.ts" => Some("typescript")
    case ".cts" => Some("typescript")
    case ".mts" => Some("typescript")
    case ".rb" => Some("ruby")
    case ".rake" => Some("ruby")
    case ".gemspec" => Some("ruby")
    case ".scala" => Some("scala")
    case ".go" => Some("go")
    case ".kt" => Some("kotlin")
    case ".kts" => Some("kotlin")
    case ".rs" => Some("rust")
    case ".dart" => Some("dart")
    case ".lua" => Some("lua")
    case ".html" => Some("html")
    case ".htm" => Some("html")
    case ".xhtml" => Some("html")
    case ".css" => Some("css")
    case ".scss" => Some("css")
    case ".sass" => Some("css")
    case ".less" => Some("css")
    case ".json" => Some("json")
    case ".jsonc" => Some("json")
    case ".xml" => Some("xml")
    case ".svg" => Some("xml")
    case ".yml" => Some("yaml")
    case ".yaml" => Some("yaml")
    case ".toml" => Some("toml")
    case ".ini" => Some("ini")
    case ".cfg" => Some("ini")
    case ".conf" => Some("ini")
    case ".md" => Some("markdown")
    case ".mdx" => Some("markdown")
    case ".sh" => Some("bash")
    case ".bash" => Some("bash")
    case ".zsh" => Some("bash")
    case ".bat" => Some("batch")
    case ".cmd" => Some("batch")
    case ".ps1" => Some("powershell")
    case _ => None
  }

  /** Binary, lock and generated-file extensions that are never analysed. */
  const SkipExtensions: set<string> := {
    ".png", ".jpg", ".jpeg", ".gif", ".bmp", ".ico", ".webp",
    ".pdf", ".zip", ".tar", ".gz", ".rar", ".7z",
    ".exe", ".dll", ".so", ".dylib", ".class",
    ".mp3", ".mp4", ".avi", ".mov", ".wav", ".flac",
    ".ttf", ".otf", ".woff", ".woff2",
    ".lock",
    ".min.js", ".min.css"
  }

  /** Directory names whose contents are never analysed. */
  const SkipDirs: set<string> := {
    ".git", "node_modules", "dist", "build", "target",
    "vendor", "bin", "obj", "out", "venv", "env",
    "__pycache__", ".idea", ".vscode", ".vs"
  }

  /** The Flutter workspace marker that excludes a path (matched case-sensitively). */
  const FlutterWorkspace: string := "ios/Runner.xcworkspace"

  /** `get_language_by_extension`: the tag for the lower-cased extension, if the table has one. */
  function GetLanguageByExtension(ext: string): Option<string>
  {
    LangMap(Lower(ext))
  }

  /** Lookup ignores letter case: two spellings that lower-case alike resolve alike. */
  lemma LookupIgnoresCase(a: string, b: string)
    requires Lower(a) == Lower(b)
    ensures GetLanguageByExtension(a) == GetLanguageByExtension(b)
    ensures GetLanguageByExtension(a) == GetLanguageByExtension(Lower(a))
  {
    LowerIdempotent(a);
  }

  /** Index of the last occurrence of `c` in `s`, or -1 (Python's `rfind`). */
  function LastIndexOf(s: string, c: char): (k: int)
    ensures -1 <= k < |s|
    ensures k >= 0 ==> s[k] == c
    ensures forall j :: k < j < |s| ==> s[j] != c
  {
    LastIndexBelow(s, c, |s|)
  }

  /** Index of the last occurrence of `c` in `s[..n]`, or -1. */
  function LastIndexBelow(s: string, c: char, n: nat): (k: int)
    requires n <= |s|
    ensures -1 <= k < n
    ensures k >= 0 ==> s[k] == c
    ensures forall j :: k < j < n ==> s[j] != c
  {
    if n == 0 then -1
    else if s[n - 1] == c then n - 1
    else LastIndexBelow(s, c, n - 1)
  }

  /** Some character strictly between positions `lo` and `hi` is not a dot. */
  predicate HasNonDotBetween(p: string, lo: int, hi: int)
    requires -1 <= lo && hi <= |p|
  {
    exists k :: lo < k < hi && p[k] != '.'
  }

  /**
    `os.path.splitext` on a POSIX path: the extension is the last '.'-suffix
    of the last path component, unless that component consists of dots up to
    that '.' (a dotfile such as `.bashrc` has no extension).
   */
  function SplitExt(p: string): (r: (string, string))
    ensures r.0 + r.1 == p
    ensures r.1 == [] || (r.1[0] == '.' && '.' !in r.1[1..] && '/' !in r.1)
    ensures r.1 != [] ==>
      && |r.0| == LastIndexOf(p, '.')
      && LastIndexOf(p, '/') < |r.0|
      && HasNonDotBetween(p, LastIndexOf(p, '/'), |r.0|)
    ensures r.1 == [] ==>
      forall k, j :: LastIndexOf(p, '/') < j < k < |p| && p[k] == '.' ==> p[j] == '.'
  {
    var sepIndex := LastIndexOf(p, '/');
    var dotIndex := LastIndexOf(p, '.');
    if dotIndex > sepIndex && HasNonDotBetween(p, sepIndex, dotIndex) then
      assert p[..dotIndex] + p[dotIndex..] == p;
      (p[..dotIndex], p[dotIndex..])
    else
      (p, "")
  }

  /** `os.path.splitext(p)[1]`. */
  function Ext(p: string): string
  {
    SplitExt(p).1
  }

  /** True when some element of `parts` is a skipped directory name (the early-return loop). */
  predicate AnyPartSkipped(parts: seq<string>)
  {
    parts != [] && (parts[0] in SkipDirs || AnyPartSkipped(parts[1..]))
  }

  /** `should_analyze_file`. */
  predicate ShouldAnalyzeFile(p: string)
  {
    var ext := Lower(Ext(p));
    if ext in SkipExtensions then false
    else if AnyPartSkipped(Split(Lower(p), '/')) then false
    else if Contains(p, FlutterWorkspace) then false
    else GetLanguageByExtension(ext).Some?
  }

  /** A file that passes the filter always has a language, so the extractor will not reject it. */
  lemma AnalysedFilesHaveLanguage(p: string)
    requires ShouldAnalyzeFile(p)
    ensures GetLanguageByExtension(Ext(p)).Some?
  {
    var ext := Lower(Ext(p));
    assert GetLanguageByExtension(ext).Some?;
    LowerIdempotent(Ext(p));
  }

  /** The extension of a path never contains a second dot, so multi-dot keys are unreachable. */
  lemma MultiDotSuffixesUnreachable(p: string)
    ensures Lower(Ext(p)) != ".min.js" && Lower(Ext(p)) != ".min.css"
    ensures Lower(Ext(p)) != ".d.ts"
  {
    var e := Ext(p);
    var l := Lower(e);
    forall j | 1 <= j < |l|
      ensures l[j] != '.'
    {
      assert e[1..][j - 1] == e[j];
    }
    assert ".min.js"[4] == '.' && ".min.css"[4] == '.' && ".d.ts"[2] == '.';
  }

  /** A minified bundle is analysed as ordinary JavaScript: only the last suffix counts. */
  lemma MinifiedScriptIsAnalysed()
    ensures Ext("a.min.js") == ".js"
    ensures ShouldAnalyzeFile("a.min.js")
  {
    MinifiedScriptExtension();
    ScriptExtensionNotSkipped();
    MinifiedScriptDirectories();
    ScriptExtensionIsJavaScript();
  }

  lemma MinifiedScriptExtension()
    ensures Ext("a.min.js") == ".js"
    ensures Lower(Ext("a.min.js")) == ".js"
  {
    assert LastIndexBelow("a.min.js", '/', 8) == -1;
    assert LastIndexBelow("a.min.js", '.', 8) == 5;
    assert "a.min.js"[0] != '.';
    assert Lower(".js") == ".js";
  }

  lemma ScriptExtensionNotSkipped()
    ensures ".js" !in SkipExtensions
  {
  }

  lemma ScriptExtensionIsJavaScript()
    ensures GetLanguageByExtension(".js") == Some("javascript")
  {
    assert Lower(".js") == ".js";
  }

  lemma MinifiedScriptDirectories()
    ensures !AnyPartSkipped(Split(Lower("a.min.js"), '/'))
  {
    assert Lower("a.min.js") == "a.min.js";
    assert Split("a.min.js", '/') == ["a.min.js"];
  }

  /** A path with a skipped directory among its (lower-cased) components is rejected. */
  lemma SkippedDirectoryRejects(p: string, k: nat)
    requires k < |Split(Lower(p), '/')| && Split(Lower(p), '/')[k] in SkipDirs
    ensures !ShouldAnalyzeFile(p)
  {
    AnyPartSkippedAt(Split(Lower(p), '/'), k);
  }

  lemma {:induction false} AnyPartSkippedAt(parts: seq<string>, k: nat)
    requires k < |parts| && parts[k] in SkipDirs
    ensures AnyPartSkipped(parts)
  {
    if k > 0 {
      AnyPartSkippedAt(parts[1..], k - 1);
    }
  }

  /** A path without an extension, a dotfile among them, is never analysed. */
  lemma NoExtensionRejects(p: string)
    requires Ext(p) == ""
    ensures !ShouldAnalyzeFile(p)
  {
    assert Lower("") == "";
  }

  /**
    A file whose name is one or more dots followed by dot-free text (a dotfile
    such as `.bashrc` or `..env`) has no extension, so it is never analysed.
   */
  lemma DotfilesHaveNoExtension(dir: string, dots: string, name: string)
    requires dir == [] || dir[|dir| - 1] == '/'
    requires dots != [] && forall j :: 0 <= j < |dots| ==> dots[j] == '.'
    requires '.' !in name && '/' !in name
    ensures Ext(dir + dots + name) == ""
    ensures !ShouldAnalyzeFile(dir + dots + name)
  {
    var p := dir + dots + name;
    var sep := LastIndexOf(p, '/');
    var dot := LastIndexOf(p, '.');
    var lastDot := |dir| + |dots| - 1;
    assert p[lastDot] == '.';
    assert forall j :: lastDot < j < |p| ==> p[j] == name[j - |dir| - |dots|];
    assert dot == lastDot;
    if dir != [] {
      assert p[|dir| - 1] == '/';
    }
    assert forall j :: |dir| <= j < |p| ==> p[j] != '/' by {
      forall j | |dir| <= j < |p|
        ensures p[j] != '/'
      {
        if j < lastDot + 1 {
          assert p[j] == dots[j - |dir|];
        } else {
          assert p[j] == name[j - |dir| - |dots|];
        }
      }
    }
    assert sep == |dir| - 1;
    assert !HasNonDotBetween(p, sep, dot) by {
      forall k | sep < k < dot
        ensures p[k] == '.'
      {
        assert p[k] == dots[k - |dir|];
      }
    }
    NoExtensionRejects(p);
  }

  /**
    The Flutter exclusion looks at the path as given, not lower-cased: it
    never fires on a path spelt in lower case.
   */
  lemma LowerCasePathNeverFlutterExcluded(p: string)
    ensures !Contains(Lower(p), FlutterWorkspace)
  {
    if Contains(Lower(p), FlutterWorkspace) {
      ContainedCharsOccur(Lower(p), FlutterWorkspace, 0, 4);
      assert false;
    }
  }

  /**
    The exact spelling of the Flutter workspace excludes a path even when its
    directories and extension would pass.
   */
  lemma FlutterWorkspaceExcluded()
    ensures !ShouldAnalyzeFile("ios/Runner.xcworkspace/a.swift")
  {
    var p := "ios/Runner.xcworkspace/a.swift";
    assert p[0..22] == FlutterWorkspace;
  }

  /** No skipped extension is a language extension, so the extension deny-list never hides a language. */
  lemma SkipExtensionsHaveNoLanguage(e: string)
    requires e in SkipExtensions
    ensures LangMap(e).None?
  {
    if e in {".png", ".jpg", ".jpeg", ".gif", ".bmp", ".ico", ".webp"} {
      ImageExtensionsUnmapped(e);
    } else if e in {".pdf", ".zip", ".tar", ".gz", ".rar", ".7z"} {
      ArchiveExtensionsUnmapped(e);
    } else if e in {".exe", ".dll", ".so", ".dylib", ".class"} {
      BinaryExtensionsUnmapped(e);
    } else if e in {".mp3", ".mp4", ".avi", ".mov", ".wav", ".flac"} {
      MediaExtensionsUnmapped(e);
    } else {
      FontAndGeneratedExtensionsUnmapped(e);
    }
  }

  lemma ImageExtensionsUnmapped(e: string)
    requires e in {".png", ".jpg", ".jpeg", ".gif", ".bmp", ".ico", ".webp"}
    ensures LangMap(e).None?
  {
  }

  lemma ArchiveExtensionsUnmapped(e: string)
    requires e in {".pdf", ".zip", ".tar", ".gz", ".rar", ".7z"}
    ensures LangMap(e).None?
  {
  }

  lemma BinaryExtensionsUnmapped(e: string)
    requires e in {".exe", ".dll", ".so", ".dylib", ".class"}
    ensures LangMap(e).None?
  {
  }

  lemma MediaExtensionsUnmapped(e: string)
    requires e in {".mp3", ".mp4", ".avi", ".mov", ".wav", ".flac"}
    ensures LangMap(e).None?
  {
  }

  lemma FontAndGeneratedExtensionsUnmapped(e: string)
    requires e in {".ttf", ".otf", ".woff", ".woff2", ".lock", ".min.js", ".min.css"}
    ensures LangMap(e).None?
  {
  }
}
