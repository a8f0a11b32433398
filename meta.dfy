/** The SEO text helpers of lib/meta.ts. Titles and descriptions are brought
    into a length range counted in code points: blank text is replaced by a
    default, long text is cut, and short text is padded with a filler. */
module Meta {
  import opened Wrappers
  import opened Strings
  import opened Types
  import I18n
  import Site
  import SiteFooter

  const BrandName := "灵点集 · SparkKit"
  const TwitterHandle := "@sparkkit"
  const TitleSuffix := " · SparkKit · spark.vincentke.cc"
  const TitleMinLength := 24
  const TitleMaxLength := 34
  const TitleFiller := " 精选拆解"
  const DescriptionMinLength := 150
  const DescriptionMaxLength := 160
  const DescriptionFiller := " 欢迎收藏 SparkKit，获取每日灵感更新。"
  /** What `ensureRange` starts from when the value is blank. */
  const RangeDefault := "SparkKit 精选灵感导航"
  /** What `composeDescription` starts from when the text is blank. */
  const DescriptionDefault := "SparkKit 提供 CodePen 灵感的亮点拆解、复用步骤与性能提示，帮助团队快速应用前端创意并保持展示站点持续更新。"
  /** What `composeDetailTitle` appends to a showcase title. */
  const DetailTitleTail := " 解读与复用要点全指南"
  /** What `createDetailMetadata` appends to a showcase summary. */
  const DetailDescriptionTail := " 包含作者信息、亮点拆解、复用步骤与性能提示，配合官方 CodePen 嵌入帮助团队快速实践，并支持复制链接分享至协作工具。"

  /** `chars.slice(0, max).join('')` when there are more than `max` code points. */
  function Clip(s: string, max: nat): string {
    if |s| > max then s[..max] else s
  }

  /** The padding loop: while shorter than `min`, append the filler; once that
      overshoots `max`, cut to `max` and stop. */
  function Pad(output: string, min: nat, max: nat, filler: string): (r: string)
    requires filler != []
    ensures |output| <= max ==> output <= r
    decreases min - |output|
  {
    if |output| >= min then output
    else
      var longer := output + filler;
      if |longer| > max then longer[..max] else Pad(longer, min, max, filler)
  }

  /** The text a bounded string is made of: `start` cut to `max`, then padded. */
  function Fit(start: string, min: nat, max: nat, filler: string): (r: string)
    requires filler != []
    ensures |start| > max ==> r == start[..max]
    ensures |start| <= max ==> start <= r
  {
    Pad(Clip(start, max), min, max, filler)
  }

  /** The cut and the padding loop shared by `ensureRange` and
      `composeDescription`. */
  method FitLength(start: string, min: nat, max: nat, filler: string) returns (output: string)
    requires filler != []
    ensures output == Fit(start, min, max, filler)
  {
    output := start;
    var chars := output;
    if |chars| > max {
      output := chars[..max];
      chars := output;
    }
    while |chars| < min
      invariant chars == output
      invariant Pad(output, min, max, filler) == Fit(start, min, max, filler)
      decreases min - |chars|
    {
      output := output + filler;
      chars := output;
      if |chars| > max {
        output := chars[..max];
        break;
      }
    }
  }

  /** `ensureRange(value, min, max, filler)` as a value. */
  function Ranged(value: string, min: nat, max: nat, filler: string): (r: string)
    requires filler != []
    ensures |r| <= max
    ensures var trimmed := Trim(value); trimmed != "" && |trimmed| <= max ==> trimmed <= r
  {
    var trimmed := Trim(value);
    FitAtMost(if trimmed == "" then RangeDefault else trimmed, min, max, filler);
    Fit(if trimmed == "" then RangeDefault else trimmed, min, max, filler)
  }

  /** `ensureRange(value, min, max, filler)`: the trimmed value, or the default
      text when that is empty, brought into `[min, max]` code points. The
      filler is never empty at any call, and an empty one would never end the
      loop. */
  method EnsureRange(value: string, min: nat, max: nat, filler: string) returns (output: string)
    requires filler != []
    ensures output == Ranged(value, min, max, filler)
  {
    output := Trim(value);
    if output == "" {
      output := RangeDefault;
    }
    output := FitLength(output, min, max, filler);
  }

  /** The padding never yields more than `max` code points. */
  lemma {:induction false} PadAtMost(output: string, min: nat, max: nat, filler: string)
    requires filler != [] && |output| <= max
    ensures |Pad(output, min, max, filler)| <= max
    decreases min - |output|
  {
    if |output| < min && |output + filler| <= max {
      PadAtMost(output + filler, min, max, filler);
    }
  }

  /** With `min <= max` the padding reaches at least `min` code points. */
  lemma {:induction false} PadAtLeast(output: string, min: nat, max: nat, filler: string)
    requires filler != [] && min <= max
    ensures |Pad(output, min, max, filler)| >= min
    decreases min - |output|
  {
    if |output| < min && |output + filler| <= max {
      PadAtLeast(output + filler, min, max, filler);
    }
  }

  /** A bounded text never has more than `max` code points, whatever the
      input. */
  lemma FitAtMost(start: string, min: nat, max: nat, filler: string)
    requires filler != []
    ensures |Fit(start, min, max, filler)| <= max
  {
    PadAtMost(Clip(start, max), min, max, filler);
  }

  /** With `min <= max` a bounded text has at least `min` code points: the
      padding loop ends there. */
  lemma FitAtLeast(start: string, min: nat, max: nat, filler: string)
    requires filler != [] && min <= max
    ensures |Fit(start, min, max, filler)| >= min
  {
    PadAtLeast(Clip(start, max), min, max, filler);
  }

  /** Text already within the range is kept as it is. */
  lemma FitKeepsInRange(start: string, min: nat, max: nat, filler: string)
    requires filler != [] && min <= |start| <= max
    ensures Fit(start, min, max, filler) == start
  {
  }

  /** `k` copies of `filler`. */
  function Copies(filler: string, k: nat): (r: string)
    ensures |r| == k * |filler|
  {
    if k == 0 then [] else filler + Copies(filler, k - 1)
  }

  /** The padding is a prefix of the text followed by `k` fillers of which
      only the last may be cut, and it keeps the whole text; the last filler
      was added while the text was still shorter than `min`. */
  lemma {:induction false} PadPrefix(output: string, min: nat, max: nat, filler: string) returns (k: nat)
    requires filler != [] && |output| <= max
    ensures var r, full := Pad(output, min, max, filler), output + Copies(filler, k);
            && |output| <= |r| <= |full| && r == full[..|r|] && |full| - |filler| <= |r|
            && (k == 0 || |full| - |filler| < min)
    decreases min - |output|
  {
    var r := Pad(output, min, max, filler);
    if |output| >= min {
      k := 0;
      assert output + Copies(filler, 0) == output;
    } else {
      var longer := output + filler;
      if |longer| > max {
        k := 1;
        assert Copies(filler, 1) == filler + Copies(filler, 0) == filler;
        assert r == longer[..max];
      } else {
        var k' := PadPrefix(longer, min, max, filler);
        k := k' + 1;
        assert longer + Copies(filler, k') == output + Copies(filler, k);
      }
    }
  }

  /** Fewer copies of the filler are a prefix of more copies. */
  lemma {:induction false} CopiesPrefix(filler: string, k: nat, k': nat)
    requires k <= k'
    ensures |Copies(filler, k)| <= |Copies(filler, k')|
    ensures Copies(filler, k) == Copies(filler, k')[..|Copies(filler, k)|]
  {
    if k > 0 {
      var short, long := Copies(filler, k - 1), Copies(filler, k' - 1);
      CopiesPrefix(filler, k - 1, k' - 1);
      assert Copies(filler, k) == filler + short;
      assert Copies(filler, k') == filler + long;
      assert (filler + long)[..|filler| + |short|] == filler + long[..|short|];
    }
  }

  /** A non-empty filler makes `k` copies at least `k` code points long. */
  lemma {:induction false} CopiesAtLeast(filler: string, k: nat)
    requires filler != []
    ensures |Copies(filler, k)| >= k
  {
    if k > 0 {
      CopiesAtLeast(filler, k - 1);
    }
  }

  /** Text shorter than `min` (and within `max`) comes back as itself followed
      by at most `min` fillers, only the last of them possibly cut. */
  lemma FitPadsShort(start: string, min: nat, max: nat, filler: string)
    requires filler != [] && |start| < min && |start| <= max
    ensures var r := Fit(start, min, max, filler);
            var longest := start + Copies(filler, min);
            |start| <= |r| <= |longest| && r == longest[..|r|]
  {
    var k := PadPrefix(start, min, max, filler);
    var r, full := Fit(start, min, max, filler), start + Copies(filler, k);
    if k > 0 {
      CopiesAtLeast(filler, k - 1);
      assert Copies(filler, k) == filler + Copies(filler, k - 1);
    }
    assert k <= min;
    CopiesPrefix(filler, k, min);
    var longest := start + Copies(filler, min);
    assert full == longest[..|full|];
    assert r == longest[..|r|];
  }

  /** A blank value is replaced by the default text before it is bounded. */
  lemma RangedBlank(value: string, min: nat, max: nat, filler: string)
    requires filler != [] && IsBlank(value)
    ensures Ranged(value, min, max, filler) == Fit(RangeDefault, min, max, filler)
  {
  }

  /** A bounded value is within `[min, max]` code points when `min <= max`. */
  lemma RangedBounds(value: string, min: nat, max: nat, filler: string)
    requires filler != [] && min <= max
    ensures min <= |Ranged(value, min, max, filler)| <= max
  {
    var trimmed := Trim(value);
    FitAtMost(if trimmed == "" then RangeDefault else trimmed, min, max, filler);
    FitAtLeast(if trimmed == "" then RangeDefault else trimmed, min, max, filler);
  }

  /** `s.replace(/\s+/g, ' ').trim()`. */
  function Squeezed(s: string): string {
    Trim(CollapseWhitespace(s))
  }

  /** `composeTitle(main)`: white-space runs collapsed, bounded to 24..34 code
      points, then the site suffix. */
  function ComposeTitle(main: string): (r: string)
    ensures var core := Ranged(Squeezed(main), TitleMinLength, TitleMaxLength, TitleFiller);
            r == core + TitleSuffix && TitleMinLength <= |core| <= TitleMaxLength
    ensures EndsWith(r, TitleSuffix)
  {
    var start := Squeezed(main);
    var core := Ranged(start, TitleMinLength, TitleMaxLength, TitleFiller);
    RangedBounds(start, TitleMinLength, TitleMaxLength, TitleFiller);
    ConcatEnds(core, TitleSuffix);
    core + TitleSuffix
  }

  /** `composeDescription(base)` as a value. */
  function Described(base: string): string {
    var normalized := Squeezed(base);
    Fit(if normalized == "" then DescriptionDefault else normalized, DescriptionMinLength, DescriptionMaxLength, DescriptionFiller)
  }

  /** `composeDescription(base)`: white-space runs collapsed and trimmed, the
      default description for blank text, then bounded to 150..160 code
      points. */
  method ComposeDescription(base: string) returns (normalized: string)
    ensures normalized == Described(base)
    ensures DescriptionMinLength <= |normalized| <= DescriptionMaxLength
  {
    normalized := Squeezed(base);
    if normalized == "" {
      normalized := DescriptionDefault;
    }
    FitAtMost(normalized, DescriptionMinLength, DescriptionMaxLength, DescriptionFiller);
    FitAtLeast(normalized, DescriptionMinLength, DescriptionMaxLength, DescriptionFiller);
    normalized := FitLength(normalized, DescriptionMinLength, DescriptionMaxLength, DescriptionFiller);
  }

  /** Every description is within 150..160 code points. */
  lemma DescribedLength(base: string)
    ensures DescriptionMinLength <= |Described(base)| <= DescriptionMaxLength
  {
    var normalized := Squeezed(base);
    var start := if normalized == "" then DescriptionDefault else normalized;
    FitAtMost(start, DescriptionMinLength, DescriptionMaxLength, DescriptionFiller);
    FitAtLeast(start, DescriptionMinLength, DescriptionMaxLength, DescriptionFiller);
  }

  /** `composeDetailTitle(rawTitle)`: the title with the detail tail, bounded to
      24..34 code points, then the site suffix. The tail alone makes the text
      non-blank, so the default is never used. */
  function ComposeDetailTitle(rawTitle: string): (r: string)
    ensures var core := Ranged(rawTitle + DetailTitleTail, TitleMinLength, TitleMaxLength, TitleFiller);
            r == core + TitleSuffix && TitleMinLength <= |core| <= TitleMaxLength
  {
    var base := rawTitle + DetailTitleTail;
    RangedBounds(base, TitleMinLength, TitleMaxLength, TitleFiller);
    Ranged(base, TitleMinLength, TitleMaxLength, TitleFiller) + TitleSuffix
  }

  datatype PageKind = Website | Article
  datatype Robots = Robots(index: bool, follow: bool, nocache: bool)
  datatype Languages = Languages(zhCN: string, enUS: string, xDefault: string)
  datatype OgImage = OgImage(url: string, width: int, height: int, alt: string)
  datatype OpenGraph = OpenGraph(
    kind: PageKind, url: string, title: string, description: string, images: seq<OgImage>, siteName: string,
    authors: Option<seq<string>>, publishedTime: Option<string>, tags: Option<seq<string>>)
  datatype Twitter = Twitter(card: string, site: string, title: string, description: string, images: seq<string>)
  datatype Metadata = Metadata(
    title: string, description: string, canonical: string, languages: Languages,
    openGraph: OpenGraph, twitter: Twitter, robots: Option<Robots>)

  /** `createSharedMeta({...})`: the page type defaults to a website and the
      image to the site cover. */
  function CreateSharedMeta(siteUrl: string, title: string, description: string, canonical: string,
                            kind: Option<PageKind>, ogImage: Option<string>, robots: Option<Robots>): (m: Metadata)
    ensures m.title == title && m.description == description && m.canonical == canonical && m.robots == robots
    ensures m.languages.zhCN == canonical && m.languages.xDefault == canonical
    ensures m.languages.enUS == canonical + "?hl=en"
    ensures m.openGraph.url == canonical && m.openGraph.kind == kind.GetOr(Website)
    ensures m.openGraph.title == title && m.openGraph.description == description
    ensures m.twitter.title == title && m.twitter.description == description
    ensures var image := ogImage.GetOr(Site.GetOgImageUrl(siteUrl));
            m.openGraph.images == [OgImage(image, 1200, 630, title)] && m.twitter.images == [image]
  {
    var image := ogImage.GetOr(Site.GetOgImageUrl(siteUrl));
    Metadata(
      title, description, canonical,
      Languages(canonical, canonical + "?hl=en", canonical),
      OpenGraph(kind.GetOr(Website), canonical, title, description, [OgImage(image, 1200, 630, title)], BrandName, None, None, None),
      Twitter("summary_large_image", TwitterHandle, title, description, [image]),
      robots)
  }

  /** The English alternate is the canonical address as the footer links it
      for English readers. */
  lemma EnglishAlternateIsFooterLink(siteUrl: string, title: string, description: string, canonical: string,
                                     kind: Option<PageKind>, ogImage: Option<string>, robots: Option<Robots>)
    requires '?' !in canonical
    ensures CreateSharedMeta(siteUrl, title, description, canonical, kind, ogImage, robots).languages.enUS ==
            SiteFooter.BuildLocalizedHref(canonical, SiteFooter.LocaleQuery(En))
  {
    assert canonical + "?hl=en" == canonical + ['?'] + "hl=en";
  }

  /** The text a detail title is built from: the Chinese title, else the
      English title, else `user/slug`. */
  function DetailTitleSource(record: ShowcaseRecord): string {
    var zhTitle := I18n.GetLocalizedText(record, I18n.Title, Some(Zh));
    var enTitle := I18n.GetLocalizedText(record, I18n.Title, Some(En));
    zhTitle.GetOr(enTitle.GetOr(record.penUser + "/" + record.penSlug))
  }

  /** The title source is the Chinese title when usable, else the English one
      when usable, else `user/slug`; the English lookup only matters when the
      Chinese lookup already falls back to it, so it never changes the result. */
  lemma DetailTitleChoice(record: ShowcaseRecord)
    ensures var cols := I18n.TextColumns(record, I18n.Title);
            DetailTitleSource(record) ==
              if I18n.UsableText(cols.zh) then cols.zh.value
              else if I18n.UsableText(cols.en) then cols.en.value
              else record.penUser + "/" + record.penSlug
    ensures I18n.GetLocalizedText(record, I18n.Title, Some(Zh)).None? ==>
              I18n.GetLocalizedText(record, I18n.Title, Some(En)).None?
  {
  }

  /** `createDetailMetadata(record)`: an article page whose title comes from
      the showcase title and whose description from its summary. */
  function CreateDetailMetadata(siteUrl: string, record: ShowcaseRecord): (m: Metadata)
    ensures m.title == ComposeDetailTitle(DetailTitleSource(record))
    ensures m.canonical == Site.GetSiteUrl(siteUrl, Some("/p/" + record.penUser + "/" + record.penSlug))
    ensures DescriptionMinLength <= |m.description| <= DescriptionMaxLength
    ensures m.openGraph.kind == Article && m.twitter.site == TwitterHandle
    ensures m.openGraph.images == [OgImage(record.thumbnailUrl.GetOr(Site.GetOgImageUrl(siteUrl)), 1200, 630, m.title)]
    ensures m.openGraph.publishedTime == record.createdAt && m.openGraph.tags == record.tags
  {
    var title := ComposeDetailTitle(DetailTitleSource(record));
    var summaryZh := I18n.GetLocalizedText(record, I18n.Summary, Some(Zh));
    var summaryEn := I18n.GetLocalizedText(record, I18n.Summary, Some(En));
    var description := Described(summaryZh.GetOr(summaryEn.GetOr("")) + DetailDescriptionTail);
    DescribedLength(summaryZh.GetOr(summaryEn.GetOr("")) + DetailDescriptionTail);
    var canonical := Site.GetSiteUrl(siteUrl, Some("/p/" + record.penUser + "/" + record.penSlug));
    var image := record.thumbnailUrl.GetOr(Site.GetOgImageUrl(siteUrl));
    var base := CreateSharedMeta(siteUrl, title, description, canonical, Some(Article), Some(image), None);
    var authors := match record.authorName case Some(a) => if a == "" then None else Some([a]) case None => None;
    base.(openGraph := base.openGraph.(kind := Article, authors := authors, publishedTime := record.createdAt, tags := record.tags),
          twitter := base.twitter.(site := TwitterHandle))
  }
}
