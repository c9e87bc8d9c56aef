/**
 The release-artifact locator of the upterm installer action (main.js, the
 two expressions inside `install()`): from the host platform, the host
 architecture and the requested version it builds the name of the upterm
 release asset and the URL it is downloaded from.

 Platform, architecture and version are opaque strings here: the installer
 takes whatever the host and the `version` input report and validates none
 of it, so every function below is total and has no error result.
 */
module Install {
  import opened Text

  /** Every asset name starts with this. */
  const AssetPrefix := "upterm_"

  /** Every download URL starts with this: tagged release downloads of owenthereal/upterm. */
  const ReleaseBase := "https://github.com/owenthereal/upterm/releases/download/"

  /** Every download URL ends with this: the asset is always a gzipped tarball. */
  const ArchiveSuffix := ".tar.gz"

  /** The platform token put in the asset name: a windows host is given the linux build. */
  function AssetPlatform(platform: string): string {
    if platform == "windows" then "linux" else platform
  }

  /**
   The platform token of an asset name built for `arch`, or None when `name`
   is not of the form upterm_<platform>_<arch>.
   */
  function PlatformOfName(name: string, arch: string): (r: Option<string>)
    ensures r.Some? <==> StartsWith(name, AssetPrefix) && EndsWith(name, "_" + arch)
                         && |AssetPrefix| + 1 + |arch| <= |name|
    ensures r.Some? ==> name == AssetPrefix + r.value + "_" + arch
  {
    var r := Between(name, AssetPrefix, "_" + arch);
    assert r.Some? ==> name == AssetPrefix + r.value + "_" + arch by {
      if r.Some? {
        assert AssetPrefix + r.value + ("_" + arch) == AssetPrefix + r.value + "_" + arch;
      }
    }
    r
  }

  /**
   The asset name upterm_<platform>_<arch> (main.js:10). Reading the name
   back for the same arch yields the platform it was built for, with windows
   already replaced by linux.
   */
  function ArtifactName(platform: string, arch: string): (name: string)
    ensures PlatformOfName(name, arch) == Some(AssetPlatform(platform))
  {
    var p := AssetPlatform(platform);
    BetweenConcat(AssetPrefix, p, "_" + arch);
    assert AssetPrefix + p + ("_" + arch) == AssetPrefix + p + "_" + arch;
    AssetPrefix + p + "_" + arch
  }

  /** The text between ReleaseBase and the version, which depends only on platform and arch. */
  function UrlTail(platform: string, arch: string): string {
    "/" + ArtifactName(platform, arch) + ArchiveSuffix
  }

  /**
   The version a download URL for (platform, arch) was built from, or None
   when `url` is not such a URL.
   */
  function VersionOfUrl(url: string, platform: string, arch: string): (r: Option<string>)
    ensures r.Some? <==> StartsWith(url, ReleaseBase) && EndsWith(url, UrlTail(platform, arch))
                         && |ReleaseBase| + |UrlTail(platform, arch)| <= |url|
    ensures r.Some? ==> url == ReleaseBase + r.value + UrlTail(platform, arch)
  {
    Between(url, ReleaseBase, UrlTail(platform, arch))
  }

  /**
   The download URL of the asset (main.js:11): the tagged-release base, the
   version, then `/<name>.tar.gz`. It always starts with that base, and
   reading it back for the same platform and arch yields exactly the
   requested version.
   */
  function ReleaseUrl(version: string, platform: string, arch: string): (url: string)
    ensures StartsWith(url, ReleaseBase)
    ensures VersionOfUrl(url, platform, arch) == Some(version)
  {
    BetweenConcat(ReleaseBase, version, UrlTail(platform, arch));
    ReleaseBase + version + UrlTail(platform, arch)
  }

  /** Whatever the inputs, the download is always a .tar.gz archive. */
  lemma ReleaseUrlIsTarball(version: string, platform: string, arch: string)
    ensures EndsWith(ReleaseUrl(version, platform, arch), ArchiveSuffix)
  {
    var tail := UrlTail(platform, arch);
    ConcatAffixes(ReleaseBase + version, tail);
    ConcatAffixes("/" + ArtifactName(platform, arch), ArchiveSuffix);
    EndsWithTransitive(ReleaseUrl(version, platform, arch), tail, ArchiveSuffix);
  }

  /** A windows host downloads exactly what a linux host downloads. */
  lemma WindowsUsesLinuxAsset(version: string, arch: string)
    ensures ArtifactName("windows", arch) == ArtifactName("linux", arch)
    ensures ReleaseUrl(version, "windows", arch) == ReleaseUrl(version, "linux", arch)
  {
  }

  /**
   Every platform other than windows reaches the asset name verbatim, and no
   asset name ever carries the token windows.
   */
  lemma OtherPlatformsPassThrough(platform: string, arch: string)
    ensures platform != "windows" ==> PlatformOfName(ArtifactName(platform, arch), arch) == Some(platform)
    ensures PlatformOfName(ArtifactName(platform, arch), arch) != Some("windows")
  {
  }

  /**
   An asset name that reads back as a platform other than windows is the
   name built for that platform; so the name reader is an exact inverse of
   the builder on every platform the builder leaves unchanged.
   */
  lemma {:induction false} NameReadBackRebuilds(name: string, arch: string)
    ensures match PlatformOfName(name, arch)
            case Some(p) => p != "windows" ==> ArtifactName(p, arch) == name
            case None => forall p :: ArtifactName(p, arch) != name
  {
    match PlatformOfName(name, arch)
    case Some(p) =>
    case None =>
  }

  /**
   For a fixed arch two platforms give the same asset name exactly when they
   agree after the windows substitution.
   */
  lemma SameNameIffSameAssetPlatform(p1: string, p2: string, arch: string)
    ensures ArtifactName(p1, arch) == ArtifactName(p2, arch) <==> AssetPlatform(p1) == AssetPlatform(p2)
  {
  }

  /**
   For a fixed platform the arch is carried verbatim: two arches give the
   same asset name exactly when they are equal.
   */
  lemma {:induction false} SameNameIffSameArch(platform: string, a1: string, a2: string)
    ensures ArtifactName(platform, a1) == ArtifactName(platform, a2) <==> a1 == a2
  {
    if ArtifactName(platform, a1) == ArtifactName(platform, a2) {
      var head := AssetPrefix + AssetPlatform(platform) + "_";
      assert ArtifactName(platform, a1) == head + a1 + "";
      assert ArtifactName(platform, a2) == head + a2 + "";
      BetweenConcat(head, a1, "");
      BetweenConcat(head, a2, "");
    }
  }

  /**
   Platform and arch are concatenated around an underscore without any
   validation, so an underscore inside either token makes the name ambiguous:
   moving a `_`-separated piece from the end of the platform to the front of
   the arch gives the same name, whenever neither platform is windows.
   */
  lemma UnderscoreMakesNamesAmbiguous(p: string, x: string, a: string)
    requires p != "windows" && p + "_" + x != "windows"
    ensures ArtifactName(p + "_" + x, a) == ArtifactName(p, x + "_" + a)
    ensures ArtifactName("linux_x", "arm64") == ArtifactName("linux", "x_arm64")
  {
  }

  /**
   A URL that reads back as a version for (platform, arch) is the URL built
   for that version; none other is ever built for that platform and arch.
   */
  lemma {:induction false} UrlReadBackRebuilds(url: string, platform: string, arch: string)
    ensures match VersionOfUrl(url, platform, arch)
            case Some(v) => ReleaseUrl(v, platform, arch) == url
            case None => forall v :: ReleaseUrl(v, platform, arch) != url
  {
    match VersionOfUrl(url, platform, arch)
    case Some(v) =>
      assert ReleaseUrl(v, platform, arch) == ReleaseBase + v + UrlTail(platform, arch);
    case None =>
  }

  /** For fixed platform and arch, distinct versions give distinct URLs. */
  lemma ReleaseUrlInjective(v1: string, v2: string, platform: string, arch: string)
    ensures ReleaseUrl(v1, platform, arch) == ReleaseUrl(v2, platform, arch) <==> v1 == v2
  {
  }

  /**
   "latest" is not special: it is embedded as a tag like any other, giving
   .../releases/download/latest/<name>.tar.gz and not the
   .../releases/latest/download/... shape GitHub uses for the newest release.
   */
  lemma LatestIsAnOrdinaryTag(platform: string, arch: string)
    ensures VersionOfUrl(ReleaseUrl("latest", platform, arch), platform, arch) == Some("latest")
    ensures StartsWith(ReleaseUrl("latest", platform, arch), ReleaseBase + "latest/")
    ensures !StartsWith(ReleaseUrl("latest", platform, arch),
                        "https://github.com/owenthereal/upterm/releases/latest/")
  {
    var url := ReleaseUrl("latest", platform, arch);
    var head := ReleaseBase + "latest/";
    assert url == head + (ArtifactName(platform, arch) + ArchiveSuffix) by {
      assert "/" + ArtifactName(platform, arch) + ArchiveSuffix
          == "/" + (ArtifactName(platform, arch) + ArchiveSuffix);
      assert ReleaseBase + "latest" + "/" == head;
    }
    ConcatAffixes(head, ArtifactName(platform, arch) + ArchiveSuffix);
    // the first position where "download/" and "latest/" differ
    var k := |"https://github.com/owenthereal/upterm/releases/"|;
    assert url[k] == ReleaseBase[k] == 'd';
  }

  /** Empty inputs are accepted too and simply leave their slots empty. */
  lemma EmptyInputsAccepted()
    ensures ArtifactName("", "") == "upterm__"
    ensures ReleaseUrl("", "", "")
            == "https://github.com/owenthereal/upterm/releases/download//upterm__.tar.gz"
  {
    assert UrlTail("", "") == "/upterm__.tar.gz";
  }
}
