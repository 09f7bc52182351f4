/** What the index builder reads off file names, module names and desktop
    entries: the plugin file filters, the catalog name of a plugin, the
    `check_is_desktop_file` test and the `Name=`/`Comment=` lookup. */
module Metadata {
  import opened Wrappers
  import opened Text

  const ActionPrefix: string := "action_"
  const PipePrefix: string := "pipe_"
  const SourceSuffix: string := ".py"

  predicate IsPrefix(prefix: string)
  {
    prefix == ActionPrefix || prefix == PipePrefix
  }

  /** `entry.name.startswith(prefix) and entry.name.endswith(".py")`
      (on the name as it is, before any lower-casing). */
  predicate IsPluginFile(fileName: string, prefix: string)
  {
    StartsWith(fileName, prefix) && EndsWith(fileName, SourceSuffix)
  }

  /** `entry.name.lower().split(".")[0].split(prefix)[-1]`. */
  function PluginName(fileName: string, prefix: string): string
    requires IsPrefix(prefix)
  {
    LastSegment(BeforeFirst(Lower(fileName), '.'), prefix)
  }

  /** `name.split(".")[-1]` of a module's dotted name. */
  function ModuleBaseName(qualifiedName: string): string
  {
    LastSegment(qualifiedName, ".")
  }

  /** The builtin-module filter: the last dotted component starts with the
      prefix (no lower-casing, no suffix test). */
  predicate IsBuiltinPlugin(qualifiedName: string, prefix: string)
  {
    StartsWith(ModuleBaseName(qualifiedName), prefix)
  }

  /** `name.split(".")[-1].split(prefix)[-1]`. */
  function BuiltinPluginName(qualifiedName: string, prefix: string): string
    requires IsPrefix(prefix)
  {
    LastSegment(ModuleBaseName(qualifiedName), prefix)
  }

  lemma OccursChar(s: string, c: char)
    ensures Occurs(s, [c]) <==> c in s
    decreases |s|
  {
    if s != [] {
      OccursChar(s[1..], c);
      assert s == [s[0]] + s[1..];
    }
  }

  lemma LowerPrefixes()
    ensures Lower(ActionPrefix) == ActionPrefix && Lower(PipePrefix) == PipePrefix
    ensures '.' !in ActionPrefix && '.' !in PipePrefix
  {
    assert ActionPrefix == ['a', 'c', 't', 'i', 'o', 'n', '_'];
    assert PipePrefix == ['p', 'i', 'p', 'e', '_'];
  }

  lemma LowerStartsWith(s: string, p: string)
    requires StartsWith(s, p)
    ensures StartsWith(Lower(s), Lower(p))
  {
    assert Lower(s)[..|p|] == Lower(s[..|p|]);
  }

  /** A text that starts with `prefix` (which holds no `.`) still starts
      with it once cut at its first `.`. */
  lemma BeforeFirstKeepsPrefix(s: string, prefix: string)
    requires StartsWith(s, prefix) && '.' !in prefix
    ensures StartsWith(BeforeFirst(s, '.'), prefix)
  {
    var stem := BeforeFirst(s, '.');
    assert stem[..|prefix|] == s[..|prefix|];
  }

  lemma OccursAtStart(s: string, p: string)
    requires StartsWith(s, p)
    ensures Occurs(s, p)
  {
  }

  /** The catalog name of a selected plugin file is what follows the last
      `action_`/`pipe_` in the lower-cased name cut at its first `.`: that
      text ends with the prefix followed by the name, and the name holds
      neither the prefix nor a `.`. */
  lemma PluginNameIsAfterLastPrefix(fileName: string, prefix: string)
    requires IsPrefix(prefix) && IsPluginFile(fileName, prefix)
    ensures var stem := BeforeFirst(Lower(fileName), '.');
            var name := PluginName(fileName, prefix);
            EndsWith(stem, prefix + name) && !Occurs(name, prefix) && '.' !in name
  {
    LowerPrefixes();
    LowerStartsWith(fileName, prefix);
    var stem := BeforeFirst(Lower(fileName), '.');
    BeforeFirstKeepsPrefix(Lower(fileName), prefix);
    OccursAtStart(stem, prefix);
    SuffixWithout(stem, PluginName(fileName, prefix), '.');
  }

  lemma SuffixWithout(s: string, t: string, c: char)
    requires EndsWith(s, t) && c !in s
    ensures c !in t
  {
    assert t == s[|s| - |t|..];
  }

  /** The same for a builtin module: the name follows the last prefix in
      the module's last dotted component and holds no `.`. */
  lemma BuiltinNameIsAfterLastPrefix(qualifiedName: string, prefix: string)
    requires IsPrefix(prefix) && IsBuiltinPlugin(qualifiedName, prefix)
    ensures var base := ModuleBaseName(qualifiedName);
            var name := BuiltinPluginName(qualifiedName, prefix);
            EndsWith(base, prefix + name) && !Occurs(name, prefix) && '.' !in name
  {
    var base := ModuleBaseName(qualifiedName);
    OccursAtStart(base, prefix);
    OccursChar(base, '.');
    var name := BuiltinPluginName(qualifiedName, prefix);
    assert name == base[|base| - |name|..];
  }

  const DesktopExtension: string := "desktop"

  /** `check_is_desktop_file`: `name.split(".")[-1].lower() == "desktop"`. */
  predicate IsDesktopFile(fileName: string)
  {
    Lower(LastSegment(fileName, ".")) == DesktopExtension
  }

  lemma LowerSuffix(s: string, k: nat)
    requires k <= |s|
    ensures Lower(s)[k..] == Lower(s[k..])
  {
  }

  lemma LowerCharDot(c: char)
    ensures LowerChar(c) == '.' <==> c == '.'
  {
  }

  /** Facts about the last `.`-separated component of a name that holds a
      `.`: it is preceded by a `.`, and lower-casing keeps that `.`. */
  lemma ExtensionShape(fileName: string)
    requires '.' in fileName
    ensures var ext := LastSegment(fileName, ".");
            var n := |fileName|;
            |ext| < n && '.' !in ext && fileName[n - |ext|..] == ext
            && Lower(fileName)[n - |ext| - 1] == '.'
            && Lower(fileName)[n - |ext|..] == Lower(ext)
  {
    var ext := LastSegment(fileName, ".");
    OccursChar(fileName, '.');
    OccursChar(ext, '.');
    var n := |fileName|;
    var m := |ext|;
    assert fileName[n - m - 1] == '.';
    LowerSuffix(fileName, n - m);
  }

  lemma LowerKeepsNoDot(s: string)
    requires '.' !in s
    ensures '.' !in Lower(s)
  {
    forall k | 0 <= k < |s| ensures Lower(s)[k] != '.' {
      LowerCharDot(s[k]);
    }
  }

  /** A text ends with at most one dot-free component that directly
      follows a `.`. */
  lemma LastComponentUnique(s: string, e: string, t: string)
    requires '.' !in e && '.' !in t && |e| < |s| && |t| < |s|
    requires s[|s| - |e| - 1] == '.' && s[|s| - |e|..] == e
    requires s[|s| - |t| - 1] == '.' && s[|s| - |t|..] == t
    ensures e == t
  {
  }

  lemma DesktopFileFromExtension(fileName: string)
    requires '.' in fileName && EndsWith(Lower(fileName), "." + DesktopExtension)
    ensures IsDesktopFile(fileName)
  {
    var ext := LastSegment(fileName, ".");
    ExtensionShape(fileName);
    LowerKeepsNoDot(ext);
    var l := Lower(fileName);
    DotExtensionShape(l);
    LastComponentUnique(l, Lower(ext), DesktopExtension);
  }

  lemma DotExtensionShape(l: string)
    requires EndsWith(l, "." + DesktopExtension)
    ensures |DesktopExtension| < |l| && '.' !in DesktopExtension
    ensures l[|l| - |DesktopExtension| - 1] == '.' && l[|l| - |DesktopExtension|..] == DesktopExtension
  {
    var n := |l|;
    assert DesktopExtension == ['d', 'e', 's', 'k', 't', 'o', 'p'];
    assert l[n - 8..] == "." + DesktopExtension;
    assert l[n - 7..] == l[n - 8..][1..];
  }

  lemma ExtensionFromDesktopFile(fileName: string)
    requires '.' in fileName && IsDesktopFile(fileName)
    ensures EndsWith(Lower(fileName), "." + DesktopExtension)
  {
    ExtensionShape(fileName);
    var n := |fileName|;
    var low := Lower(fileName);
    assert |LastSegment(fileName, ".")| == 7;
    assert low[n - 7..] == DesktopExtension;
    assert low[n - 8..] == [low[n - 8]] + low[n - 7..];
  }

  /** A file counts as a desktop entry exactly when its name ends in
      `.desktop` in any ASCII case, or when it has no `.` at all and is
      `desktop` itself in any ASCII case. */
  lemma DesktopFileIff(fileName: string)
    ensures IsDesktopFile(fileName) <==>
              ('.' !in fileName && Lower(fileName) == DesktopExtension)
              || ('.' in fileName && EndsWith(Lower(fileName), "." + DesktopExtension))
  {
    OccursChar(fileName, '.');
    if '.' in fileName {
      if IsDesktopFile(fileName) {
        ExtensionFromDesktopFile(fileName);
      }
      if EndsWith(Lower(fileName), "." + DesktopExtension) {
        DesktopFileFromExtension(fileName);
      }
    }
  }

  /** The index of the first line whose lower-cased form starts with
      `key`, as `next(line for line in lines if line.lower().startswith(key))`
      finds it; `None` where `next` raises `StopIteration`. */
  function FirstWithKey(lines: seq<string>, key: string): (r: Option<nat>)
    ensures r.Some? ==> r.value < |lines| && StartsWith(Lower(lines[r.value]), key)
    ensures r.Some? ==> forall j :: 0 <= j < r.value ==> !StartsWith(Lower(lines[j]), key)
    ensures r.None? ==> forall j :: 0 <= j < |lines| ==> !StartsWith(Lower(lines[j]), key)
  {
    if lines == [] then None
    else if StartsWith(Lower(lines[0]), key) then Some(0)
    else match FirstWithKey(lines[1..], key)
      case None => None
      case Some(i) => Some(i + 1)
  }

  const NameKey: string := "name="
  const CommentKey: string := "comment="

  predicate IsKey(key: string)
  {
    key == NameKey || key == CommentKey
  }

  /** What makes the desktop keys easy to cut: they are non-empty, their
      first character lower-cases from no white space, and their only `=`
      is the last character. */
  lemma KeyShape(key: string)
    requires IsKey(key)
    ensures |key| > 1 && key[|key| - 1] == '='
    ensures '=' !in key[..|key| - 1]
    ensures forall c :: LowerChar(c) == key[0] ==> !IsSpace(c)
    ensures forall c, j :: 0 <= j < |key| - 1 && LowerChar(c) == key[j] ==> c != '='
  {
    if key == NameKey {
      assert key == ['n', 'a', 'm', 'e', '='];
    } else {
      assert key == ['c', 'o', 'm', 'm', 'e', 'n', 't', '='];
    }
  }

  lemma {:induction false} StripEndDrop(s: string, k: nat)
    requires 0 < k <= |s| && !IsSpace(s[k - 1])
    ensures |StripEnd(s)| >= k
    ensures StripEnd(s)[k..] == StripEnd(s[k..])
    decreases |s|
  {
    if IsSpace(s[|s| - 1]) {
      StripEndDrop(s[..|s| - 1], k);
      assert s[k..][..|s[k..]| - 1] == s[..|s| - 1][k..];
    }
  }

  /** `d = line.strip(); d[d.index("=") + 1:]` for a line whose lower-cased
      form starts with `key`. */
  function KeyValue(line: string, key: string): (v: string)
    requires IsKey(key) && StartsWith(Lower(line), key)
    ensures v == StripEnd(line[|key|..])
  {
    KeyShape(key);
    var k := |key|;
    assert LowerChar(line[k - 1]) == '=' && LowerChar(line[0]) == key[0];
    StripEndDrop(line, k);
    StripEndShape(line);
    var trimmed := StripEnd(line);
    assert trimmed[0] == line[0];
    var d := Strip(line);
    assert d == trimmed;
    assert d[k - 1] == '=';
    assert forall j :: 0 <= j < k - 1 ==> d[j] != '=' by {
      forall j | 0 <= j < k - 1 ensures d[j] != '=' {
        assert d[j] == line[j] && LowerChar(line[j]) == Lower(line)[j] == key[j];
      }
    }
    var before := BeforeFirst(d, '=');
    assert |before| == k - 1;
    AfterFirst(d, '=')
  }

  /** The `name`/`description` pair the application indexer reads. */
  datatype DesktopInfo = DesktopInfo(name: string, description: string)

  /** The `Name=`/`Comment=` lookup of `index_populate_application`: the
      first `name=` line (any ASCII case) gives the name, the first
      `comment=` line the description, `""` when there is none; `None`
      stands for the `StopIteration` a file without a `name=` line raises. */
  function ParseDesktopEntry(lines: seq<string>): Option<DesktopInfo>
  {
    match FirstWithKey(lines, NameKey)
    case None => None
    case Some(i) =>
      var description :=
        match FirstWithKey(lines, CommentKey)
        case None => ""
        case Some(j) => if Strip(lines[j]) == "" then "" else KeyValue(lines[j], CommentKey);
      Some(DesktopInfo(KeyValue(lines[i], NameKey), description))
  }

  predicate HasKeyAt(lines: seq<string>, key: string, i: nat)
  {
    i < |lines| && StartsWith(Lower(lines[i]), key)
  }

  /** The line `i` is the first one starting with `key`. */
  predicate FirstKeyAt(lines: seq<string>, key: string, i: nat)
  {
    HasKeyAt(lines, key, i) && forall j :: 0 <= j < i ==> !HasKeyAt(lines, key, j)
  }

  /** Parsing fails exactly when no line starts with `name=`; otherwise the
      name is the rest of the first such line, right-stripped, and the
      description is the same for the first `comment=` line, or `""`. */
  lemma DesktopEntryFields(lines: seq<string>)
    ensures ParseDesktopEntry(lines).None? <==> forall j :: 0 <= j < |lines| ==> !HasKeyAt(lines, NameKey, j)
    ensures ParseDesktopEntry(lines).Some? ==>
              exists i: nat :: FirstKeyAt(lines, NameKey, i)
                && ParseDesktopEntry(lines).value.name == StripEnd(lines[i][|NameKey|..])
    ensures ParseDesktopEntry(lines).Some? && (forall j :: 0 <= j < |lines| ==> !HasKeyAt(lines, CommentKey, j))
            ==> ParseDesktopEntry(lines).value.description == ""
    ensures ParseDesktopEntry(lines).Some? && (exists j: nat :: HasKeyAt(lines, CommentKey, j))
            ==> exists j: nat :: FirstKeyAt(lines, CommentKey, j)
                  && ParseDesktopEntry(lines).value.description == StripEnd(lines[j][|CommentKey|..])
  {
    match FirstWithKey(lines, NameKey)
    case None =>
    case Some(i) =>
      assert FirstKeyAt(lines, NameKey, i);
      match FirstWithKey(lines, CommentKey)
      case None =>
      case Some(j) =>
        assert FirstKeyAt(lines, CommentKey, j);
        assert Strip(lines[j]) != "" by {
          KeyShape(CommentKey);
          StripEndDrop(lines[j], |CommentKey|);
          StripEndShape(lines[j]);
          assert LowerChar(lines[j][0]) == CommentKey[0];
        }
  }
}
