# upterm release locator

A Dafny model of the part of the `debug-with-ssh` GitHub Action that decides
which upterm release to fetch. Its `install()` step reads a version, asks the
host for its platform and architecture, and from those three strings builds

- the asset name `upterm_<platform>_<arch>`, where a `windows` host is given
  the `linux` build and every other platform, like the arch, is used verbatim
  (`Install.ArtifactName`);
- the download URL
  `https://github.com/owenthereal/upterm/releases/download/<version>/<name>.tar.gz`
  (`Install.ReleaseUrl`).

Both are total functions over `string`: the action validates none of its
inputs, so the model has no error result and no precondition. Each builder has
an inverse reader as its partner (`Install.PlatformOfName`,
`Install.VersionOfUrl`, both on top of `Text.Between`); the builders' contracts
state the round trip, and the lemmas state the converse, the windows
substitution, the pass-through of other platforms and of arch, injectivity in
version, and that `latest` is an ordinary tag.

The project is `text.dfy` (module `Text`: prefix, suffix and the text between
them) and `install.dfy` (module `Install`: the locator).

`install()` (main.js:4-16) has no special URL for `latest`, no tool cache, no
`chmod`, no architecture override and no package-manager path: `latest` is
embedded in the URL like any other tag (`Install.LatestIsAnOrdinaryTag`).

## Model

| member | source | states |
|---|---|---|
| `Install.ArtifactName` | main.js:10 | the name reads back, for the same arch, as the platform with `windows` replaced by `linux` and any other platform unchanged; so it is `upterm_` + that platform + `_` + arch |
| `Install.PlatformOfName` | main.js:10 | a name is accepted exactly when it starts with `upterm_` and ends with `_<arch>` without overlap, and it is then `upterm_` + result + `_` + arch |
| `Install.WindowsUsesLinuxAsset` | main.js:10-11 | for every arch and version, the name and the URL for `windows` equal those for `linux` |
| `Install.OtherPlatformsPassThrough` | main.js:10 | a platform other than `windows` appears verbatim in the name; no built name ever reads back as `windows` |
| `Install.NameReadBackRebuilds` | main.js:10 | a name that reads back as a non-windows platform is the name built for it; a name that does not read back is never built for that arch |
| `Install.SameNameIffSameAssetPlatform` | main.js:10 | for a fixed arch, two platforms give the same name if and only if they agree after the windows substitution |
| `Install.SameNameIffSameArch` | main.js:10 | for a fixed platform, two arches give the same name if and only if they are equal: arch is passed through verbatim |
| `Install.UnderscoreMakesNamesAmbiguous` | main.js:10 | platform and arch are joined with `_` unvalidated, so for every non-windows platform `p`, `p_x`/`a` and `p`/`x_a` name the same asset (e.g. `linux_x`/`arm64` and `linux`/`x_arm64`) |
| `Install.ReleaseUrl` | main.js:11 | the URL starts with the fixed tagged-release base and reads back, for the same platform and arch, as exactly the requested version |
| `Install.ReleaseUrlIsTarball` | main.js:11 | for all inputs the URL ends with `.tar.gz` |
| `Install.VersionOfUrl` | main.js:11 | a URL is accepted exactly when it carries the release base and the tail `/<name>.tar.gz` without overlap, and it is then base + result + tail |
| `Install.UrlReadBackRebuilds` | main.js:11 | a URL that reads back as a version is the URL built for it; a URL that does not read back is never built for that platform and arch |
| `Install.ReleaseUrlInjective` | main.js:11 | for fixed platform and arch, two versions give the same URL if and only if they are equal |
| `Install.LatestIsAnOrdinaryTag` | main.js:11 | `latest` reads back as the version `latest` and gives a URL starting `.../releases/download/latest/`, never the `.../releases/latest/...` shape |
| `Install.EmptyInputsAccepted` | main.js:10-11 | empty platform, arch and version are accepted and give `upterm__` and `.../download//upterm__.tar.gz` |

## Left out

- Reading the `version` input through `core.getInput` (main.js:5): an external input source; the version is a parameter.
- Host detection through `os.arch()` and `os.platform()` (main.js:7-8): an environment query; platform and arch are opaque parameters. `os` is never required in main.js, and Node reports `win32` and `x64` rather than `windows` and `amd64`; these are facts about the runtime that the model does not reproduce.
- Download and extraction through `tc.downloadTool` and `tc.extractTar` (main.js:12-13): network and filesystem I/O in a library that is not part of this model.
- `core.addPath` (main.js:15): a change to the process-wide PATH.
- The `run()` wrapper that reports any exception through `core.setFailed` (main.js:18-24) and its top-level call (main.js:26): asynchronous error reporting with no computed result.
