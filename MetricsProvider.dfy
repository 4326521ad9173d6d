/** Platform factory selection of MetricsProvider.java: which metrics factory
    serves the host, from the platform, the configuration and what each
    factory reports about its own prerequisites; the chosen factory is
    initialized and, unless caching was switched off, wrapped in the cache. */
module MetricsProvider {
  import opened Wrappers

  datatype Platform = Windows | Linux | MacOsX | FreeBsd | Solaris | Unknown

  datatype FactoryKind = WindowsFactory | RaspbianFactory | MacOsFactory | DefaultFactory

  /** The optional `windows` section of the configuration. */
  datatype WindowsConfiguration = WindowsConfiguration(enableOhmJniWrapper: bool)

  /** What each candidate factory's prerequisitesFilled() answers. */
  datatype Prerequisites = Prerequisites(windows: bool, raspbian: bool, macOs: bool, defaultImpl: bool)

  datatype MetricsFactory = Plain(kind: FactoryKind) | Cached(kind: FactoryKind)

  /** The IllegalStateException "No metrics factory available". */
  datatype CreateError = NoMetricsFactoryAvailable

  /** ASCII lower-casing. */
  function ToLower(s: string): (r: string)
    ensures |r| == |s|
    ensures forall i :: 0 <= i < |s| ==> r[i] == (if 'A' <= s[i] <= 'Z' then (s[i] as int + 32) as char else s[i])
  {
    if s == [] then []
    else
      var c := s[|s| - 1];
      ToLower(s[..|s| - 1]) + [if 'A' <= c <= 'Z' then (c as int + 32) as char else c]
  }

  predicate OccursAt(s: string, sub: string, i: int) {
    0 <= i <= |s| - |sub| && s[i..i + |sub|] == sub
  }

  /** Java's String.contains. */
  predicate Contains(s: string, sub: string) {
    exists i :: 0 <= i <= |s| && OccursAt(s, sub, i)
  }

  lemma {:induction false} ToLowerIdempotent(s: string)
    ensures ToLower(ToLower(s)) == ToLower(s)
  {
    var l := ToLower(s);
    assert forall i :: 0 <= i < |l| ==> !('A' <= l[i] <= 'Z');
  }

  /** The Raspbian check: the lower-cased OS family contains the qualifier. */
  predicate IsRaspbian(family: string, qualifier: string) {
    Contains(ToLower(family), qualifier)
  }

  /** The fallback: the default factory when its prerequisites are filled. */
  function Fallback(pre: Prerequisites): Option<FactoryKind> {
    if pre.defaultImpl then Some(DefaultFactory) else None
  }

  /** The factory create() settles on, or None when it throws. */
  function Selected(os: Platform, windows: Option<WindowsConfiguration>, family: string, qualifier: string,
                    pre: Prerequisites): Option<FactoryKind>
  {
    match os
    case Windows =>
      if (windows.None? || windows.value.enableOhmJniWrapper) && pre.windows then Some(WindowsFactory)
      else Fallback(pre)
    case Linux =>
      if IsRaspbian(family, qualifier) && pre.raspbian then Some(RaspbianFactory) else Fallback(pre)
    case MacOsX =>
      if pre.macOs then Some(MacOsFactory) else Fallback(pre)
    case _ => Fallback(pre)
  }

  function Wrap(kind: FactoryKind, cache: bool): (f: MetricsFactory)
    ensures f.kind == kind && (f.Cached? <==> cache)
  {
    if cache then Cached(kind) else Plain(kind)
  }

  lemma WindowsChosenIff(os: Platform, windows: Option<WindowsConfiguration>, family: string, qualifier: string,
                         pre: Prerequisites)
    ensures Selected(os, windows, family, qualifier, pre) == Some(WindowsFactory) <==>
      os == Windows && (windows.None? || windows.value.enableOhmJniWrapper) && pre.windows
  {
  }

  lemma RaspbianChosenIff(os: Platform, windows: Option<WindowsConfiguration>, family: string, qualifier: string,
                          pre: Prerequisites)
    ensures Selected(os, windows, family, qualifier, pre) == Some(RaspbianFactory) <==>
      os == Linux && IsRaspbian(family, qualifier) && pre.raspbian
  {
  }

  lemma MacOsChosenIff(os: Platform, windows: Option<WindowsConfiguration>, family: string, qualifier: string,
                       pre: Prerequisites)
    ensures Selected(os, windows, family, qualifier, pre) == Some(MacOsFactory) <==>
      os == MacOsX && pre.macOs
  {
  }

  /** FreeBSD, Solaris and unknown platforms only ever get the default factory. */
  lemma OtherPlatformsFallBack(os: Platform, windows: Option<WindowsConfiguration>, family: string, qualifier: string,
                               pre: Prerequisites)
    requires os == FreeBsd || os == Solaris || os == Unknown
    ensures Selected(os, windows, family, qualifier, pre) == Fallback(pre)
  {
  }

  /** create() throws exactly when no platform factory applies and the default
      lacks its prerequisites. */
  lemma {:induction false} ThrowsIff(os: Platform, windows: Option<WindowsConfiguration>, family: string, qualifier: string,
                                     pre: Prerequisites)
    ensures Selected(os, windows, family, qualifier, pre).None? <==>
      && !pre.defaultImpl
      && !(os == Windows && (windows.None? || windows.value.enableOhmJniWrapper) && pre.windows)
      && !(os == Linux && IsRaspbian(family, qualifier) && pre.raspbian)
      && !(os == MacOsX && pre.macOs)
  {
  }

  /** The family's letter case does not matter to the Raspbian check. */
  lemma {:induction false} RaspbianIgnoresCase(family: string, qualifier: string)
    ensures IsRaspbian(family, qualifier) <==> IsRaspbian(ToLower(family), qualifier)
  {
    ToLowerIdempotent(family);
  }

  /** Only the family is lower-cased: a qualifier holding an upper-case letter
      matches no family at all. */
  lemma {:induction false} UpperCaseQualifierNeverMatches(family: string, qualifier: string, k: int)
    requires 0 <= k < |qualifier| && 'A' <= qualifier[k] <= 'Z'
    ensures !IsRaspbian(family, qualifier)
  {
    var l := ToLower(family);
    forall i | 0 <= i <= |l| ensures !OccursAt(l, qualifier, i) {
      if i <= |l| - |qualifier| {
        assert l[i..i + |qualifier|][k] == l[i + k];
      }
    }
  }

  class MetricsProvider {
    var cache: bool

    constructor ()
      ensures cache
    {
      cache := true;
    }

    method SetCache(cache: bool)
      modifies this
      ensures this.cache == cache
    {
      this.cache := cache;
    }

    /** create(): the selected factory, initialized (the only one whose
        initialize() runs) and cached iff `cache` is set; an error when none is
        available. */
    method Create(os: Platform, windows: Option<WindowsConfiguration>, family: string, qualifier: string,
                  pre: Prerequisites)
      returns (r: Result<MetricsFactory, CreateError>, initialized: seq<FactoryKind>)
      ensures r.Failure? <==> Selected(os, windows, family, qualifier, pre).None?
      ensures r.Failure? ==> initialized == []
      ensures r.Success? ==>
        && r.value.kind == Selected(os, windows, family, qualifier, pre).value
        && (r.value.Cached? <==> cache)
        && initialized == [r.value.kind]
    {
      match os {
        case Windows =>
          if windows.None? || windows.value.enableOhmJniWrapper {
            if pre.windows {
              return Success(Wrap(WindowsFactory, cache)), [WindowsFactory];
            }
          }
        case Linux =>
          if Contains(ToLower(family), qualifier) {
            if pre.raspbian {
              return Success(Wrap(RaspbianFactory, cache)), [RaspbianFactory];
            }
          }
        case MacOsX =>
          if pre.macOs {
            return Success(Wrap(MacOsFactory, cache)), [MacOsFactory];
          }
        case _ =>
      }
      if pre.defaultImpl {
        return Success(Wrap(DefaultFactory, cache)), [DefaultFactory];
      } else {
        return Failure(NoMetricsFactoryAvailable), [];
      }
    }
  }
}
