/**
 The video embed (WistiaPlayer).

 An empty media id, or the sentinel "wistia_id_here", renders a "not configured"
 notice. Any other id renders the provider's embed fragment: an element whose class
 names carry the id for the provider's script, and a blurred swatch image fetched
 from the provider. The swatch's wrapper starts at opacity 0 and is set to 1 by the
 image's load handler; nothing sets it back.
 */
module WistiaPlayer {

  datatype Option<T> = None | Some(value: T)

  /** The placeholder id that means "not configured". */
  const Sentinel: string := "wistia_id_here"
  const SwatchPrefix: string := "https://fast.wistia.com/embed/medias/"
  const SwatchSuffix: string := "/swatch"
  /** The class-name prefix through which the provider's script finds the media id. */
  const AsyncPrefix: string := "wistia_async_"
  const EmbedClassPrefix: string := "wistia_embed " + AsyncPrefix
  const EmbedClassSuffix: string := " videoFoam=true"

  /** The configuration guard: only a non-empty id other than the sentinel is embedded. */
  predicate Configured(videoId: string) {
    videoId != "" && videoId != Sentinel
  }

  /** The part of s between a given prefix and suffix, when s has both. */
  function StripAffixes(s: string, prefix: string, suffix: string): Option<string> {
    if |prefix| + |suffix| <= |s| && s[..|prefix|] == prefix && s[|s| - |suffix|..] == suffix
    then Some(s[|prefix|..|s| - |suffix|])
    else None
  }

  /** Stripping undoes wrapping, and only wrapped strings strip. */
  lemma StripAffixesIff(s: string, prefix: string, x: string, suffix: string)
    ensures StripAffixes(s, prefix, suffix) == Some(x) <==> s == prefix + x + suffix
  {
    if s == prefix + x + suffix {
      assert s[..|prefix|] == prefix;
      assert s[|s| - |suffix|..] == suffix;
      assert s[|prefix|..|s| - |suffix|] == x;
    }
    if StripAffixes(s, prefix, suffix) == Some(x) {
      assert s == s[..|prefix|] + s[|prefix|..|s| - |suffix|] + s[|s| - |suffix|..];
    }
  }

  /** The source of the swatch image; the provider reads the media id back out of it. */
  function SwatchUrl(videoId: string): (url: string)
    ensures StripAffixes(url, SwatchPrefix, SwatchSuffix) == Some(videoId)
  {
    StripAffixesIff(SwatchPrefix + videoId + SwatchSuffix, SwatchPrefix, videoId, SwatchSuffix);
    SwatchPrefix + videoId + SwatchSuffix
  }

  /** The class names of the embed element; they carry the token wistia_async_<id>. */
  function EmbedClassName(videoId: string): (c: string)
    ensures StripAffixes(c, EmbedClassPrefix, EmbedClassSuffix) == Some(videoId)
    ensures c[|"wistia_embed "|..|EmbedClassPrefix| + |videoId|] == AsyncPrefix + videoId
  {
    StripAffixesIff(EmbedClassPrefix + videoId + EmbedClassSuffix, EmbedClassPrefix, videoId, EmbedClassSuffix);
    EmbedClassPrefix + videoId + EmbedClassSuffix
  }

  /** Different ids give different swatch URLs and different embed classes. */
  lemma EmbedIdentifiesMedia(a: string, b: string)
    ensures SwatchUrl(a) == SwatchUrl(b) <==> a == b
    ensures EmbedClassName(a) == EmbedClassName(b) <==> a == b
  {
  }

  /** What the component renders. */
  datatype PlayerView =
    | NotConfigured
    | Embed(embedClass: string, swatchSrc: string, swatchOpacity: nat)

  /** The rendered view for an id and the swatch's current opacity. */
  function ViewOf(videoId: string, swatchOpacity: nat): (v: PlayerView)
    ensures v.NotConfigured? <==> videoId == "" || videoId == Sentinel
    ensures v.Embed? ==> StripAffixes(v.swatchSrc, SwatchPrefix, SwatchSuffix) == Some(videoId)
    ensures v.Embed? ==> StripAffixes(v.embedClass, EmbedClassPrefix, EmbedClassSuffix) == Some(videoId)
    ensures v.Embed? ==> v.swatchOpacity == swatchOpacity
  {
    if !Configured(videoId) then NotConfigured
    else Embed(EmbedClassName(videoId), SwatchUrl(videoId), swatchOpacity)
  }

  /** The mounted component: its id prop and the swatch wrapper's opacity. */
  class Player {
    const videoId: string
    var mounted: bool
    var swatchOpacity: nat

    /** The opacity is 0 or 1, and only an embedded swatch can have become visible. */
    ghost predicate Valid()
      reads this
    {
      swatchOpacity <= 1 && (!Configured(videoId) ==> swatchOpacity == 0)
    }

    /** Mount: the swatch starts hidden. */
    constructor (videoId: string)
      ensures Valid()
      ensures this.videoId == videoId && mounted && swatchOpacity == 0
    {
      this.videoId := videoId;
      mounted := true;
      swatchOpacity := 0;
    }

    /**
     The swatch image finished loading. Only a mounted, configured player has the
     image and its handler; the handler makes the swatch fully opaque.
     */
    method OnLoad()
      requires Valid()
      modifies this
      ensures Valid()
      ensures mounted == old(mounted)
      ensures swatchOpacity == if old(mounted) && Configured(videoId) then 1 else old(swatchOpacity)
      ensures swatchOpacity >= old(swatchOpacity)
    {
      if mounted && Configured(videoId) {
        swatchOpacity := 1;
      }
    }

    /** Unmount: the image and its load handler go away. */
    method Unmount()
      requires Valid()
      modifies this
      ensures Valid()
      ensures !mounted && swatchOpacity == old(swatchOpacity)
    {
      mounted := false;
    }

    function Render(): (v: PlayerView)
      reads this
      ensures v.NotConfigured? <==> !Configured(videoId)
      ensures v.Embed? ==> v.swatchSrc == SwatchUrl(videoId) && v.swatchOpacity == swatchOpacity
    {
      ViewOf(videoId, swatchOpacity)
    }
  }
}
