# ProjectSetup editor tooling, modelled in Dafny

`Editor/ProjectSetup.cs` is a Unity editor script with three helpers, and this project models each one:

- **Assets.ImportAsset** finds a downloaded Asset Store archive in the local cache and hands it to the package importer. The cache root depends on the platform and on an editor preference. The archive name is completed with `.unitypackage`. If the file is missing, `FileNotFoundException` is thrown.
- **Packages** installs package identifiers through the package manager. Identifiers go into a FIFO queue. Requests are made one at a time only when each submission is made while the installer is idle; see Findings. A chain of `async` calls takes the head of the queue, asks the package manager for it, and polls until the request completes. It then logs the outcome and, after a pause, takes the next identifier.
- **Folders** creates a root folder under `Assets` with nested sub-folder hierarchies, moves a top-level folder under another, and deletes a folder.

The modules:

- `Text`: `String.Split(char)`, joining, suffix and prefix tests, and the non-empty segments of a path.
- `Console`: the three kinds of console output, which are `Debug.Log`, `Debug.LogError` and an unhandled exception.
- `Assets`: the import as pure functions. The environment is a parameter: the platform, the special folders, the editor preferences and the set of existing files.
- `Packages`: the queue as the class `Installer`. Each running `StartNextPackageInstallation` is an explicit *drain* value, `Polling` or `CoolingDown`. Each point where an `async` wait can resume is a method:
  - `RequestCompletes`: the package manager finishes.
  - `Poll`: a drain tests `IsCompleted`.
  - `CooldownElapsed`: the 1000 ms pause is over.
- `Folders`: the class `Project`. Its directories are a set of paths. Each path is the list of folder names starting at `Assets`. The invariant is that the set is closed under parents.

## Model

| member | source | states |
|---|---|---|
| Assets.CacheRoot | Editor/ProjectSetup.cs:79-89 | The cache root always ends in "Asset Store-5.x". On MacOSX and Unix it starts with the Personal (home) folder and ends with "Library/Unity/Asset Store-5.x". Elsewhere it starts with the AssetStoreCacheRootPath preference when that is set (the EditorPrefs.GetString lookup), and otherwise with ApplicationData combined with "Unity". |
| Assets.UnixIgnoresPreference | Editor/ProjectSetup.cs:80-84 | On MacOSX and Unix, changing the stored preferences never changes the cache root. |
| Assets.PreferenceOverridesApplicationData | Editor/ProjectSetup.cs:86-88 | Elsewhere, a stored AssetStoreCacheRootPath alone decides the root: ApplicationData is ignored, and the root is that preference combined with "Asset Store-5.x". |
| Assets.FileName | Editor/ProjectSetup.cs:91 | The completed name ends with ".unitypackage" and starts with the given name. A name that already ends with it is unchanged. |
| Assets.FileNameIdempotent | Editor/ProjectSetup.cs:91 | Completing a name twice gives the same result as completing it once. |
| Assets.FileNameOfBareName | Editor/ProjectSetup.cs:91 | "Foo" and "Foo.unitypackage" complete to the same file name, "Foo.unitypackage". |
| Assets.Combine | Editor/ProjectSetup.cs:83-93 | The combined path ends with its second part. It starts with its first part whenever the second part is non-empty and not rooted. When neither part is empty, the first does not end with '/' and the second is not rooted, exactly one '/' is put between them. |
| Assets.CombineSegments | Editor/ProjectSetup.cs:83-93 | Read as folder names, a path combined with a part that is not rooted is the names of the first part followed by the names of the second. |
| Assets.ArchivePath | Editor/ProjectSetup.cs:93 | The full path `Combine(basePath, folder, asset)` ends with the completed file name, and so ends with ".unitypackage". For an asset name that is not rooted it starts with the cache root combined with the folder, and when the folder is not rooted either it starts with the cache root. |
| Assets.ArchivePathOfBareName | Editor/ProjectSetup.cs:91-93 | "Foo" and "Foo.unitypackage" resolve to the same full archive path. |
| Assets.ImportAsset | Editor/ProjectSetup.cs:77-101 | It throws exactly when the resolved path is not an existing file. On a throw, the message is "The asset package was not found at the path: " followed by the path, and the importer is never called. Otherwise ImportPackage is called exactly once, with that path and interactive = false. |
| Assets.ImportOfBareName | Editor/ProjectSetup.cs:91-101 | Importing "Foo" and importing "Foo.unitypackage" give the same outcome, whether a throw or a call. |
| Assets.ImportedPathIsArchive | Editor/ProjectSetup.cs:95-100 | Every path given to the importer exists, ends with ".unitypackage", and is imported non-interactively. |
| Packages.Classify | Editor/ProjectSetup.cs:123-124 | Success gives "Installed: " followed by the package id, as an info entry, and only Success gives it. Failure gives the error message as an error entry. Every finished status gives exactly one entry; InProgress gives none. |
| Packages.Installer.Enqueue | Editor/ProjectSetup.cs:109-111 | Every identifier is appended to the tail of the queue, in argument order. Nothing else changes. |
| Packages.Installer.RequestNext | Editor/ProjectSetup.cs:119 | The head of the queue is dequeued and requested. The new, unfinished request replaces `request`. |
| Packages.Installer.InstallPackages | Editor/ProjectSetup.cs:108-116 | The identifiers are queued. If the queue is then empty, nothing is requested and no drain starts. Otherwise the head is requested and a new polling drain is added, even if one is already running. Started from idle, it keeps installs serial and the log in request order. |
| Packages.Installer.InstallPackagesWhenIdle | Editor/ProjectSetup.cs:108-116 | The corrected submission: it queues the identifiers and starts a drain only when none is running, so installs stay serial. |
| Packages.Installer.RequestCompletes | Editor/ProjectSetup.cs:121 | The current request becomes completed with a finished status, and its outcome is recorded in request order. |
| Packages.Installer.Poll | Editor/ProjectSetup.cs:121-129 | A drain whose request is not complete keeps waiting and logs nothing. Once complete, the outcome is logged once, by Classify. The drain then pauses if the queue is non-empty and ends otherwise. Serial operation and in-order reporting are preserved. |
| Packages.Installer.CooldownElapsed | Editor/ProjectSetup.cs:119-128 | After the pause, a non-empty queue yields the next request and the drain polls again. An empty queue makes Dequeue throw: the exception is logged and the drain ends. |
| Packages.FinishCurrent | Editor/ProjectSetup.cs:119-129 | One pass of a serial drain logs the finished request's entry. It then ends the drain if the queue is empty, or requests the head of the queue. |
| Packages.InstallTwo | Editor/ProjectSetup.cs:108-129 | Installing [a, b] where a succeeds and b fails logs "Installed: …" and then the failure message. It requests a and b in order and ends idle. |
| Packages.OverlappingSubmissions | Editor/ProjectSetup.cs:105-128 | The code as written, with a second submission while the first request is in flight: b's outcome is logged twice, a's never, and the queue-empty exception ends the second drain. |
| Packages.OverlappingSubmissionsWhenIdle | Editor/ProjectSetup.cs:108-129 | With the corrected submission, the same calls log "Installed: a", "Installed: b" and "Installed: c" once each, in order, and end idle. |
| Text.Split | Editor/ProjectSetup.cs:146 | Splitting always yields at least one piece, and no piece contains the separator. |
| Text.JoinSplit | Editor/ProjectSetup.cs:146 | Joining the pieces of a split with the separator gives back the original string. |
| Text.SplitJoin | Editor/ProjectSetup.cs:146 | Splitting a join of separator-free pieces gives back the pieces. |
| Text.Segments | Editor/ProjectSetup.cs:146-150 | The folder names a '/'-separated path denotes: the split pieces with the empty ones dropped (as Combine ignores an empty piece). No name is empty and none contains '/'. |
| Text.SegmentsOfJoin | Editor/ProjectSetup.cs:146-160 | The names of "a/b" are the names of a followed by the names of b. |
| Text.SplitAround | Editor/ProjectSetup.cs:146-160 | The pieces of a + separator + b are the pieces of a followed by the pieces of b. |
| Folders.Ancestry | Editor/ProjectSetup.cs:137-152 | What Directory.CreateDirectory(p) makes exist: exactly the non-empty ancestors of p, p included. |
| Folders.Project.CreateDirectory | Editor/ProjectSetup.cs:137 | Directory.CreateDirectory adds exactly the directory and its ancestors, and keeps the directory set closed under parents. |
| Folders.AssetPath | Editor/ProjectSetup.cs:158-174 | The folder an "Assets/<name>" string names: it starts with "Assets", and every later name is non-empty and contains no '/'. |
| Folders.AssetPathOfName | Editor/ProjectSetup.cs:158 | "Assets/<name>" for a plain folder name is exactly that folder inside Assets. |
| Folders.Child | Editor/ProjectSetup.cs:150 | Combine(currentPath, folder) for one split piece: the result lies inside the current path and is at most one level deeper. It stays the same exactly when the piece is empty, and otherwise its last name is the piece. |
| Folders.ChildStep | Editor/ProjectSetup.cs:149-150 | One more Child step for the next split piece gives the root extended by the non-empty pieces seen so far. |
| Folders.MoveTargetIsChildPath | Editor/ProjectSetup.cs:160 | "Assets/parent/name" denotes the folder name inside "Assets/parent". |
| Folders.Tree | Editor/ProjectSetup.cs:134-155 | Everything Create guarantees to exist always includes the root and all its ancestors. |
| Folders.TreeHasEveryLevel | Editor/ProjectSetup.cs:134-155 | The root, and every left-to-right level of every '/'-split hierarchy below it, is in the tree that Create makes. |
| Folders.TreeClosed | Editor/ProjectSetup.cs:134-155 | Adding the tree to a parent-closed directory set keeps it parent-closed. |
| Folders.Project.Create | Editor/ProjectSetup.cs:134-143 | Afterwards the directories are exactly the old ones plus the tree of the root and all its hierarchies. No directory is removed. |
| Folders.Project.CreateSubFolders | Editor/ProjectSetup.cs:145-155 | Walking the split pieces adds exactly the ancestry of the root extended by the hierarchy's non-empty segments. |
| Folders.CreateTwice | Editor/ProjectSetup.cs:134-155 | A first Create only adds directories. A second Create with the same arguments changes nothing. |
| Folders.Subtree | Editor/ProjectSetup.cs:176-177 | What DeleteAsset removes: existing directories only, all of them inside the folder, the folder itself when it exists. In a parent-closed set, a missing folder has nothing inside it. |
| Folders.RemoveSubtreeClosed | Editor/ProjectSetup.cs:176-177 | Removing a subtree keeps the directory set parent-closed and leaves nothing inside the folder. |
| Folders.Relocate | Editor/ProjectSetup.cs:161 | What a successful MoveAsset does: every directory outside the source is kept and every directory inside it has an image under the destination. Nothing else is in the result: each member is either a kept directory or lies inside the destination as the image of a directory inside the source. |
| Folders.RelocateClosed | Editor/ProjectSetup.cs:157-165 | An accepted move keeps the directory set parent-closed, makes the destination a folder, and leaves nothing at or inside the source. Its exact effect: outside the destination a path exists afterwards exactly when it existed and was not inside the source; inside the destination, exactly when the corresponding path inside the source existed. |
| Folders.Project.Move | Editor/ProjectSetup.cs:157-171 | A missing "Assets/name" logs "Folder name does not exist." and changes nothing. A refused move logs "Failed to move name: error" and changes nothing. A successful move relocates the subtree to "Assets/parent/name" and logs nothing. |
| Folders.Project.Delete | Editor/ProjectSetup.cs:173-179 | An existing folder is removed with everything inside it. A missing one is a no-op. Either way nothing inside the folder remains. |

## Left out

- The menu handlers and their attributes (ImportOdin, ImportEditorExtensions, ImportConsolePro, CreateFolders, the empty InstallPackages menu item). They are fixed sequences of calls to the modelled operations.
- OpenAssetFolder: it checks a hard-coded machine path and reveals it in the file browser, which is I/O only.
- The Unity and OS collaborators are parameters of the model:
  - Environment.GetFolderPath, OSVersion and EditorPrefs form the `Environment` value.
  - File.Exists is the `files` set.
  - ImportPackage is a recorded call.
  - Client.Add is a recorded identifier. Its completion is given by `RequestCompletes`.
  - AssetDatabase.MoveAsset's error string is a parameter of `Move`.
- Folders.Project.Move: the model requires that the move error is empty only for a move the asset database can perform. The destination's parent must exist, the destination must be absent, and the destination must not lie inside the source. The asset database's own checks are not modelled.
- Folders.Project.Delete: DeleteAsset's boolean result is ignored by the source and is not modelled. Deletion is assumed to succeed.
- Folders.Project.Delete: an empty name names the Assets folder itself, and the model removes it. Whether the asset database allows that is not modelled.
- The asset database and the file system are one set of directories, so AssetDatabase.Refresh has nothing to do and is not modelled.
- Files are not part of the directory set. The IOException that Directory.CreateDirectory throws when a file sits where a level should be (Create and CreateSubFolders) is not modelled.
- Folders.AssetPath: a folder string is read as its non-empty '/'-separated names. So Move("Scenes/", p) or Move("a//b", p) tests the folder Assets/Scenes or Assets/a/b, while the source passes the raw strings "Assets/Scenes/" and "Assets/a//b" to IsValidFolder and MoveAsset. How the asset database treats trailing or doubled separators is not modelled.
- Assets.Combine: only '/' is a separator. Windows separators, drive roots and `..` are not modelled. In the folder paths, a name is a list of '/'-separated segments, so a rooted `root` argument to Create is treated as relative.
- Assets.FileName: string.EndsWith with no comparison argument is culture-sensitive in .NET. The model compares ordinally.
- Packages: the Task.Delay(10) polling interval and the Task.Delay(1000) pause have no duration in the model. `async void` scheduling is represented by the caller choosing which drain resumes next.
- Packages.Installer.InstallPackages: the serial and in-order properties are promised only when the call starts from an idle installer. The code as written does not keep them when a drain is already running; see Findings.
- Other exceptions from Client.Add, and a request whose Result or Error is null, are not modelled.

## Findings

| source | as written | input that shows it | evidently intended | confidence | as-written member | corrected member |
|---|---|---|---|---|---|---|
| Editor/ProjectSetup.cs:105-114 | InstallPackages starts a new drain whenever the queue is non-empty, even while a drain is running. All drains poll the one static `request` field. | InstallPackages([a, b]), then InstallPackages([c]) while a is in flight. Both drains then observe b's completion: "Installed: b" is logged twice and a's outcome never. Both drains pause; the first takes c, and the second calls Dequeue on an empty queue and throws InvalidOperationException. | Queue the identifiers behind a running drain, and start a drain only when none is running. Each request is then reported once, in order. | medium, not executed | Packages.OverlappingSubmissions | Packages.Installer.InstallPackagesWhenIdle |
