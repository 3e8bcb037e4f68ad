/** Importing a pre-downloaded Asset Store archive: where the archive cache is,
    how an archive name is completed to a file name, and the existence check
    that guards the call to the importer.

    The editor environment (platform, special folders, stored preferences) and
    the files on disk are parameters; the importer is represented by the calls
    made to it. Paths are strings joined with '/'. */
module Assets {
  import opened Text
  import opened Wrappers

  /** System.PlatformID. */
  datatype Platform = Win32S | Win32Windows | Win32NT | WinCE | Unix | Xbox | MacOSX | Other

  /** What ImportAsset asks of its surroundings: the platform, the "Personal"
      (home) and "ApplicationData" special folders, and the stored editor
      preferences. */
  datatype Environment = Environment(
    platform: Platform,
    personalFolder: string,
    applicationDataFolder: string,
    preferences: map<string, string>)

  const Extension := ".unitypackage"
  const CacheFolderName := "Asset Store-5.x"
  const UnixCacheSubpath := "Library/Unity/Asset Store-5.x"
  const CacheRootPreference := "AssetStoreCacheRootPath"
  const NotFoundPrefix := "The asset package was not found at the path: "

  predicate IsUnixFamily(p: Platform) {
    p == MacOSX || p == Unix
  }

  /** Path.Combine(a, b) with '/' as the only separator: an empty part is
      dropped, a rooted b replaces a, and a separator is inserted only when a
      does not already end with one. */
  function Combine(a: string, b: string): (r: string)
    ensures EndsWith(r, b)
    ensures b != "" && b[0] != '/' ==> StartsWith(r, a)
    ensures a != "" && a[|a| - 1] != '/' && b != "" && b[0] != '/' ==> r == a + "/" + b
  {
    if b == "" then a
    else if a == "" || b[0] == '/' then b
    else if a[|a| - 1] == '/' then a + b
    else a + "/" + b
  }

  /** Read as a list of folder names, a combined path is the names of its
      first part followed by those of its second, whenever the second part is
      not rooted. */
  lemma CombineSegments(a: string, b: string)
    requires b == "" || b[0] != '/'
    ensures Segments(Combine(a, b)) == Segments(a) + Segments(b)
  {
    assert Segments("") == [] by {
      assert NonEmpty([""]) == [] + NonEmpty([]);
    }
    if b == "" {
    } else if a == "" {
    } else if a[|a| - 1] == '/' {
      var x := a[..|a| - 1];
      assert a == x + "/" + "";
      assert a + b == x + "/" + b;
      SegmentsOfJoin(x, "");
      SegmentsOfJoin(x, b);
    } else {
      SegmentsOfJoin(a, b);
    }
  }

  lemma StartsWithTransitive(s: string, t: string, u: string)
    requires StartsWith(s, t) && StartsWith(t, u)
    ensures StartsWith(s, u)
  {
    assert s[..|u|] == s[..|t|][..|u|];
  }

  lemma EndsWithTransitive(s: string, t: string, u: string)
    requires EndsWith(s, t) && EndsWith(t, u)
    ensures EndsWith(s, u)
  {
    assert s[|s| - |u|..] == s[|s| - |t|..][|t| - |u|..];
  }

  /** The Asset Store download cache (Editor/ProjectSetup.cs:79-89). It always
      ends in the "Asset Store-5.x" folder. On macOS and Unix it is
      Library/Unity/Asset Store-5.x under the home folder. Elsewhere it is
      Asset Store-5.x under the AssetStoreCacheRootPath preference
      (EditorPrefs.GetString), whose default is ApplicationData/Unity. */
  function CacheRoot(env: Environment): (r: string)
    ensures EndsWith(r, CacheFolderName)
    ensures IsUnixFamily(env.platform) ==> StartsWith(r, env.personalFolder) && EndsWith(r, UnixCacheSubpath)
    ensures !IsUnixFamily(env.platform) && CacheRootPreference in env.preferences ==>
              StartsWith(r, env.preferences[CacheRootPreference])
    ensures !IsUnixFamily(env.platform) && CacheRootPreference !in env.preferences ==>
              StartsWith(r, Combine(env.applicationDataFolder, "Unity"))
              && StartsWith(r, env.applicationDataFolder)
  {
    if IsUnixFamily(env.platform) then HomeCacheRoot(env.personalFolder)
    else
      var defaultPath := Combine(env.applicationDataFolder, "Unity");
      var stored := if CacheRootPreference in env.preferences then env.preferences[CacheRootPreference] else defaultPath;
      StoredCacheRoot(stored, defaultPath, env.applicationDataFolder)
  }

  /** The macOS and Unix branch of CacheRoot. */
  function HomeCacheRoot(home: string): (r: string)
    ensures StartsWith(r, home) && EndsWith(r, UnixCacheSubpath) && EndsWith(r, CacheFolderName)
  {
    var r := Combine(home, UnixCacheSubpath);
    EndsWithTransitive(r, UnixCacheSubpath, CacheFolderName);
    r
  }

  /** The other branch of CacheRoot: the stored (or default) root path
      combined with "Asset Store-5.x". */
  function StoredCacheRoot(stored: string, defaultPath: string, applicationDataFolder: string): (r: string)
    ensures StartsWith(r, stored) && EndsWith(r, CacheFolderName)
    ensures stored == defaultPath && StartsWith(defaultPath, applicationDataFolder) ==>
              StartsWith(r, applicationDataFolder)
  {
    var r := Combine(stored, CacheFolderName);
    if stored == defaultPath && StartsWith(defaultPath, applicationDataFolder) then
      StartsWithTransitive(r, defaultPath, applicationDataFolder);
      r
    else
      r
  }

  /** On macOS and Unix the preference is never consulted. */
  lemma UnixIgnoresPreference(env: Environment, preferences: map<string, string>)
    requires IsUnixFamily(env.platform)
    ensures CacheRoot(env.(preferences := preferences)) == CacheRoot(env)
  {
  }

  /** Elsewhere a stored preference decides the root and ApplicationData is not
      consulted. */
  lemma PreferenceOverridesApplicationData(env: Environment, applicationDataFolder: string)
    requires !IsUnixFamily(env.platform) && CacheRootPreference in env.preferences
    ensures CacheRoot(env.(applicationDataFolder := applicationDataFolder)) == CacheRoot(env)
    ensures CacheRoot(env) == Combine(env.preferences[CacheRootPreference], CacheFolderName)
  {
  }

  /** The archive's file name: the name itself when it already ends with
      ".unitypackage", otherwise the name with that extension appended
      (Editor/ProjectSetup.cs:91). */
  function FileName(asset: string): (r: string)
    ensures EndsWith(r, Extension)
    ensures StartsWith(r, asset)
    ensures EndsWith(asset, Extension) ==> r == asset
  {
    if EndsWith(asset, Extension) then asset
    else
      AppendedEndsWith(asset, Extension);
      asset + Extension
  }

  /** Completing a name twice is completing it once. */
  lemma FileNameIdempotent(asset: string)
    ensures FileName(FileName(asset)) == FileName(asset)
  {
  }

  /** "Foo" and "Foo.unitypackage" name the same file. */
  lemma FileNameOfBareName(asset: string)
    requires !EndsWith(asset, Extension)
    ensures FileName(asset) == FileName(asset + Extension) == asset + Extension
  {
    AppendedEndsWith(asset, Extension);
  }

  /** A name that is not rooted completes to a file name that is not rooted. */
  lemma NotRootedName(asset: string)
    ensures asset == "" || asset[0] != '/' ==> FileName(asset) != "" && FileName(asset)[0] != '/'
  {
    if asset == "" {
      assert FileName(asset) == Extension;
    } else {
      assert FileName(asset)[0] == FileName(asset)[..|asset|][0] == asset[0];
    }
  }

  /** Combine(basePath, folder, asset) of Editor/ProjectSetup.cs:93: the
      archive's full path, which ends with its completed file name. */
  function ArchivePath(env: Environment, asset: string, folder: string): (r: string)
    ensures EndsWith(r, FileName(asset))
    ensures EndsWith(r, Extension)
    ensures asset == "" || asset[0] != '/' ==> StartsWith(r, Combine(CacheRoot(env), folder))
    ensures (asset == "" || asset[0] != '/') && (folder == "" || folder[0] != '/') ==>
              StartsWith(r, CacheRoot(env))
  {
    var directory := Combine(CacheRoot(env), folder);
    var name := FileName(asset);
    var r := Combine(directory, name);
    EndsWithTransitive(r, name, Extension);
    NotRootedName(asset);
    if (asset == "" || asset[0] != '/') && (folder == "" || folder[0] != '/') then
      StartsWithTransitive(r, directory, CacheRoot(env));
      r
    else
      r
  }

  /** A bare name and the same name with the extension resolve to the same
      archive. */
  lemma ArchivePathOfBareName(env: Environment, asset: string, folder: string)
    requires !EndsWith(asset, Extension)
    ensures ArchivePath(env, asset, folder) == ArchivePath(env, asset + Extension, folder)
  {
    FileNameOfBareName(asset);
  }

  /** One call of AssetDatabase.ImportPackage(packagePath, interactive). */
  datatype ImportCall = ImportPackage(packagePath: string, interactive: bool)

  /** What ImportAsset did: the importer calls it made, in order, and the
      FileNotFoundException it threw, if any (carrying its message). */
  datatype ImportOutcome = ImportOutcome(calls: seq<ImportCall>, fileNotFound: Option<string>)

  /** Assets.ImportAsset (Editor/ProjectSetup.cs:77-101) against the set of
      files that exist. A missing archive throws FileNotFoundException naming
      the path and the importer is never called; an existing one is handed to
      the importer exactly once, non-interactively. */
  function ImportAsset(env: Environment, files: set<string>, asset: string, folder: string): (r: ImportOutcome)
    ensures r.fileNotFound.Some? <==> ArchivePath(env, asset, folder) !in files
    ensures r.fileNotFound.Some? ==>
              r.calls == [] && r.fileNotFound.value == NotFoundPrefix + ArchivePath(env, asset, folder)
    ensures r.fileNotFound.None? ==> r.calls == [ImportPackage(ArchivePath(env, asset, folder), false)]
  {
    var fullPath := ArchivePath(env, asset, folder);
    if fullPath !in files then ImportOutcome([], Some(NotFoundPrefix + fullPath))
    else ImportOutcome([ImportPackage(fullPath, false)], None)
  }

  /** Importing "Foo" and importing "Foo.unitypackage" behave identically. */
  lemma ImportOfBareName(env: Environment, files: set<string>, asset: string, folder: string)
    requires !EndsWith(asset, Extension)
    ensures ImportAsset(env, files, asset, folder) == ImportAsset(env, files, asset + Extension, folder)
  {
    ArchivePathOfBareName(env, asset, folder);
  }

  /** Whatever the importer is given is an archive file. */
  lemma ImportedPathIsArchive(env: Environment, files: set<string>, asset: string, folder: string)
    ensures forall c :: c in ImportAsset(env, files, asset, folder).calls ==>
              c.packagePath in files && EndsWith(c.packagePath, Extension) && !c.interactive
  {
  }
}
