/**
 * The pure helpers of `SmaphBuilder`: parsing the web-search engine name, the labels that
 * identify a SMAPH configuration, and the names of the model and z-score files of a label.
 */
module SmaphBuilder {
  import opened Basics
  import opened Decimal

  /** The web-search engines SMAPH can query. */
  datatype Websearch = Bing | GoogleCse

  /** The Java enum constant's name, which `String.format("%s", ws)` prints. */
  function WebsearchName(ws: Websearch): (s: string)
    ensures s != [] && '-' !in s
  {
    match ws
    case Bing => "BING"
    case GoogleCse => "GOOGLE_CSE"
  }

  /** The command-line spelling of each engine, the one `websearchFromString` accepts. */
  function WebsearchArgument(ws: Websearch): string
  {
    match ws
    case Bing => "bing"
    case GoogleCse => "google"
  }

  /** `websearchFromString`: `"bing"` and `"google"` name an engine; any other string names none. */
  function WebsearchFromString(s: string): (r: Option<Websearch>)
    ensures r.Some? ==> WebsearchArgument(r.value) == s
  {
    if s == "bing" then Some(Bing)
    else if s == "google" then Some(GoogleCse)
    else None
  }

  /** A string names engine `ws` exactly when it is that engine's command-line spelling. */
  lemma WebsearchFromStringIff(s: string, ws: Websearch)
    ensures WebsearchFromString(s) == Some(ws) <==> s == WebsearchArgument(ws)
  {
  }

  /** The strings accepted are exactly the two spellings; everything else gives no engine. */
  lemma WebsearchFromStringNone(s: string)
    ensures WebsearchFromString(s).None? <==> s != "bing" && s != "google"
  {
  }

  /** The enum names that labels print are not spellings the parser accepts (they are upper-case). */
  lemma WebsearchNameNotParsed(ws: Websearch)
    ensures WebsearchFromString(WebsearchName(ws)).None?
  {
  }

  /** The three SMAPH variants. */
  datatype SmaphVersion = EntityFilter | AnnotationRegressor | Collective

  /** `SmaphVersion.toString`: the short label of each variant. */
  function VersionLabel(v: SmaphVersion): (s: string)
    ensures s != [] && '_' !in s
  {
    match v
    case EntityFilter => "ef"
    case AnnotationRegressor => "ar"
    case Collective => "coll"
  }

  lemma VersionLabelInjective(v: SmaphVersion, u: SmaphVersion)
    requires VersionLabel(v) == VersionLabel(u)
    ensures v == u
  {
    assert VersionLabel(v)[0] == VersionLabel(u)[0];
  }

  /** How many results of each source the default configurations take. */
  const DefaultNormalSearchResults: int := 5
  const DefaultWikiSearchResults: int := 10
  const DefaultAnnotatedSnippets: int := 15

  /** `a`, the separator `sep`, then `b`. */
  function Joined(a: string, sep: char, b: string): (r: string)
    ensures |r| == |a| + 1 + |b|
  {
    a + [sep] + b
  }

  /** The three top-k values of a label: `S1=<k1>_S2=<k2>_S3=<k3>`. */
  function TopKs(k1: int, k2: int, k3: int): string
  {
    Joined("S1=" + IntToString(k1), '_', Joined("S2=" + IntToString(k2), '_', "S3=" + IntToString(k3)))
  }

  /** `getSourceLabel`: `<version>_<engine>-S1=<k1>_S2=<k2>_S3=<k3>`. */
  function SourceLabel(v: SmaphVersion, ws: Websearch, k1: int, k2: int, k3: int): (r: string)
    ensures r == VersionLabel(v) + "_" + WebsearchName(ws) + "-S1=" + IntToString(k1)
                 + "_S2=" + IntToString(k2) + "_S3=" + IntToString(k3)
  {
    LabelFormat(VersionLabel(v), WebsearchName(ws), IntToString(k1), IntToString(k2), IntToString(k3));
    Joined(VersionLabel(v), '_', Joined(WebsearchName(ws), '-', TopKs(k1, k2, k3)))
  }

  /** The nested joins of a label spell out the format `%s_%s-S1=%d_S2=%d_S3=%d`. */
  lemma LabelFormat(v: string, w: string, i1: string, i2: string, i3: string)
    ensures Joined(v, '_', Joined(w, '-', Joined("S1=" + i1, '_', Joined("S2=" + i2, '_', "S3=" + i3))))
         == v + "_" + w + "-S1=" + i1 + "_S2=" + i2 + "_S3=" + i3
  {
  }

  /** `getDefaultLabel`: the source label with the default top-k of each enabled source. */
  function DefaultLabel(v: SmaphVersion, ws: Websearch, s1: bool, s2: bool, s3: bool): (r: string)
    ensures r == SourceLabel(v, ws, if s1 then 5 else 0, if s2 then 10 else 0, if s3 then 15 else 0)
  {
    SourceLabel(v, ws, if s1 then DefaultNormalSearchResults else 0, if s2 then DefaultWikiSearchResults else 0,
                if s3 then DefaultAnnotatedSnippets else 0)
  }

  const BestPrefix: string := "models/best_"

  /** `getBestModelFileBase`: the class-path resource `models/best_<label>.<extension>`. */
  function BestModelResource(name: string, extension: string): (r: string)
    ensures |r| == |BestPrefix| + |name| + 1 + |extension|
    ensures r[..|BestPrefix|] == "models/best_" && r[|r| - |extension| - 1..] == "." + extension
  {
    BestPrefix + name + "." + extension
  }

  /** `getModel` and `getZscoreNormalizer`: the resources of a configuration given by its top-k values. */
  function Model(v: SmaphVersion, ws: Websearch, k1: int, k2: int, k3: int): (r: string)
    ensures r == "models/best_" + SourceLabel(v, ws, k1, k2, k3) + ".model"
  {
    BestModelResource(SourceLabel(v, ws, k1, k2, k3), "model")
  }

  function ZscoreNormalizer(v: SmaphVersion, ws: Websearch, k1: int, k2: int, k3: int): (r: string)
    ensures r == "models/best_" + SourceLabel(v, ws, k1, k2, k3) + ".zscore"
  {
    BestModelResource(SourceLabel(v, ws, k1, k2, k3), "zscore")
  }

  /** `getDefaultModel` and `getDefaultZscoreNormalizer`: the resources of a default configuration. */
  function DefaultModel(v: SmaphVersion, ws: Websearch, s1: bool, s2: bool, s3: bool): (r: string)
    ensures r == Model(v, ws, if s1 then 5 else 0, if s2 then 10 else 0, if s3 then 15 else 0)
  {
    BestModelResource(DefaultLabel(v, ws, s1, s2, s3), "model")
  }

  function DefaultZscoreNormalizer(v: SmaphVersion, ws: Websearch, s1: bool, s2: bool, s3: bool): (r: string)
    ensures r == ZscoreNormalizer(v, ws, if s1 then 5 else 0, if s2 then 10 else 0, if s3 then 15 else 0)
  {
    BestModelResource(DefaultLabel(v, ws, s1, s2, s3), "zscore")
  }

  /** The relative path `Paths.get(parts...)` builds, with `/` between the parts. */
  function JoinPath(parts: seq<string>): string
  {
    if |parts| == 0 then ""
    else if |parts| == 1 then parts[0]
    else parts[0] + "/" + JoinPath(parts[1..])
  }

  /** The file name `best_<label>.<extension>`. */
  function BestFileName(name: string, extension: string): string
  {
    "best_" + name + "." + extension
  }

  const ResourcesParts: seq<string> := ["src", "main", "resources", "models"]

  /**
   * `getModelFile` and `getZscoreNormalizerFile`: where the training tools write a configuration's
   * files. They are the resources the annotator later loads, once the class path is rooted at
   * `src/main/resources`.
   */
  function ModelFile(v: SmaphVersion, ws: Websearch, k1: int, k2: int, k3: int): (r: string)
    ensures r == "src/main/resources/" + Model(v, ws, k1, k2, k3)
  {
    FileIsResource(SourceLabel(v, ws, k1, k2, k3), "model");
    JoinPath(ResourcesParts + [BestFileName(SourceLabel(v, ws, k1, k2, k3), "model")])
  }

  function ZscoreNormalizerFile(v: SmaphVersion, ws: Websearch, k1: int, k2: int, k3: int): (r: string)
    ensures r == "src/main/resources/" + ZscoreNormalizer(v, ws, k1, k2, k3)
  {
    FileIsResource(SourceLabel(v, ws, k1, k2, k3), "zscore");
    JoinPath(ResourcesParts + [BestFileName(SourceLabel(v, ws, k1, k2, k3), "zscore")])
  }

  // ---------------------------------------------------------------------------------------
  // Labels identify configurations

  /** A string cut at the first occurrence of a separator that the head does not contain. */
  lemma SplitAtSeparator(a: string, b: string, a2: string, b2: string, c: char)
    requires c !in a && c !in a2
    requires Joined(a, c, b) == Joined(a2, c, b2)
    ensures a == a2 && b == b2
  {
    var s := Joined(a, c, b);
    assert s[|a|] == c && s[|a2|] == c;
    assert |a| == |a2|;
    assert a == s[..|a|] == a2;
    assert b == s[|a| + 1..] == b2;
  }

  /** Two strings that agree after a common prefix agree on what follows it. */
  lemma DropPrefix(p: string, b: string, b2: string)
    requires p + b == p + b2
    ensures b == b2
  {
    assert b == (p + b)[|p|..];
    assert b2 == (p + b2)[|p|..];
  }

  /** A key followed by an int's text gives back the int. */
  lemma FieldInjective(key: string, k: int, k': int)
    requires key + IntToString(k) == key + IntToString(k')
    ensures k == k'
  {
    DropPrefix(key, IntToString(k), IntToString(k'));
    IntToStringInjective(k, k');
  }

  lemma NoUnderscoreInField(key: string, k: int)
    requires '_' !in key
    ensures '_' !in key + IntToString(k)
  {
    IntToStringChars(k);
  }

  /** The top-k part of a label determines the three values. */
  lemma TopKsInjective(k1: int, k2: int, k3: int, k1': int, k2': int, k3': int)
    requires TopKs(k1, k2, k3) == TopKs(k1', k2', k3')
    ensures k1 == k1' && k2 == k2' && k3 == k3'
  {
    NoUnderscoreInField("S1=", k1);
    NoUnderscoreInField("S1=", k1');
    SplitAtSeparator("S1=" + IntToString(k1), Joined("S2=" + IntToString(k2), '_', "S3=" + IntToString(k3)),
                     "S1=" + IntToString(k1'), Joined("S2=" + IntToString(k2'), '_', "S3=" + IntToString(k3')), '_');
    FieldInjective("S1=", k1, k1');
    NoUnderscoreInField("S2=", k2);
    NoUnderscoreInField("S2=", k2');
    SplitAtSeparator("S2=" + IntToString(k2), "S3=" + IntToString(k3),
                     "S2=" + IntToString(k2'), "S3=" + IntToString(k3'), '_');
    FieldInjective("S2=", k2, k2');
    FieldInjective("S3=", k3, k3');
  }

  /** Distinct configurations have distinct source labels. */
  lemma SourceLabelInjective(v: SmaphVersion, ws: Websearch, k1: int, k2: int, k3: int,
                             v': SmaphVersion, ws': Websearch, k1': int, k2': int, k3': int)
    requires SourceLabel(v, ws, k1, k2, k3) == SourceLabel(v', ws', k1', k2', k3')
    ensures v == v' && ws == ws' && k1 == k1' && k2 == k2' && k3 == k3'
  {
    SplitAtSeparator(VersionLabel(v), Joined(WebsearchName(ws), '-', TopKs(k1, k2, k3)),
                     VersionLabel(v'), Joined(WebsearchName(ws'), '-', TopKs(k1', k2', k3')), '_');
    VersionLabelInjective(v, v');
    SplitAtSeparator(WebsearchName(ws), TopKs(k1, k2, k3), WebsearchName(ws'), TopKs(k1', k2', k3'), '-');
    assert WebsearchName(ws)[0] == WebsearchName(ws')[0];
    TopKsInjective(k1, k2, k3, k1', k2', k3');
  }

  /** Distinct default configurations (version, engine, enabled sources) have distinct labels. */
  lemma DefaultLabelInjective(v: SmaphVersion, ws: Websearch, s1: bool, s2: bool, s3: bool,
                              v': SmaphVersion, ws': Websearch, s1': bool, s2': bool, s3': bool)
    requires DefaultLabel(v, ws, s1, s2, s3) == DefaultLabel(v', ws', s1', s2', s3')
    ensures v == v' && ws == ws' && s1 == s1' && s2 == s2' && s3 == s3'
  {
    SourceLabelInjective(v, ws, if s1 then 5 else 0, if s2 then 10 else 0, if s3 then 15 else 0,
                         v', ws', if s1' then 5 else 0, if s2' then 10 else 0, if s3' then 15 else 0);
  }

  /** A default configuration's resources are those of the configuration with its default top-k values. */
  lemma DefaultModelIsModel(v: SmaphVersion, ws: Websearch, s1: bool, s2: bool, s3: bool)
    ensures DefaultModel(v, ws, s1, s2, s3)
         == Model(v, ws, if s1 then 5 else 0, if s2 then 10 else 0, if s3 then 15 else 0)
    ensures DefaultZscoreNormalizer(v, ws, s1, s2, s3)
         == ZscoreNormalizer(v, ws, if s1 then 5 else 0, if s2 then 10 else 0, if s3 then 15 else 0)
  {
  }

  // ---------------------------------------------------------------------------------------
  // Model and z-score files

  /** The label between `models/best_` and the final `.<extension>` of a resource name. */
  lemma BestModelResourceLabel(name: string, extension: string)
    ensures var r := BestModelResource(name, extension);
      && r[..|BestPrefix|] == BestPrefix
      && r[|BestPrefix|..|BestPrefix| + |name|] == name
      && r[|BestPrefix| + |name|..] == "." + extension
  {
    var r := BestModelResource(name, extension);
    assert r == BestPrefix + (name + ("." + extension));
  }

  /**
   * The model and the z-score normaliser of a configuration carry the same label and differ only
   * in their extension: the two names agree up to the final `.`, then say `model` and `zscore`.
   */
  lemma ModelAndZscoreShareLabel(v: SmaphVersion, ws: Websearch, k1: int, k2: int, k3: int)
    ensures var base := BestPrefix + SourceLabel(v, ws, k1, k2, k3) + ".";
      && Model(v, ws, k1, k2, k3) == base + "model"
      && ZscoreNormalizer(v, ws, k1, k2, k3) == base + "zscore"
      && Model(v, ws, k1, k2, k3) != ZscoreNormalizer(v, ws, k1, k2, k3)
  {
    var name := SourceLabel(v, ws, k1, k2, k3);
    assert |BestModelResource(name, "model")| != |BestModelResource(name, "zscore")|;
  }

  /** Distinct configurations read distinct model resources. */
  lemma ModelInjective(v: SmaphVersion, ws: Websearch, k1: int, k2: int, k3: int,
                       v': SmaphVersion, ws': Websearch, k1': int, k2': int, k3': int)
    requires Model(v, ws, k1, k2, k3) == Model(v', ws', k1', k2', k3')
    ensures v == v' && ws == ws' && k1 == k1' && k2 == k2' && k3 == k3'
  {
    var name := SourceLabel(v, ws, k1, k2, k3);
    var name' := SourceLabel(v', ws', k1', k2', k3');
    BestModelResourceLabel(name, "model");
    BestModelResourceLabel(name', "model");
    assert |name| == |name'|;
    SourceLabelInjective(v, ws, k1, k2, k3, v', ws', k1', k2', k3');
  }

  lemma JoinPathResources(name: string)
    ensures JoinPath(ResourcesParts + [name]) == "src/main/resources/models/" + name
  {
    var parts := ResourcesParts + [name];
    assert parts[1..][1..][1..][1..] == [name];
    assert JoinPath(parts[1..][1..][1..]) == "models" + "/" + name;
    assert JoinPath(parts[1..][1..]) == "resources" + "/" + ("models" + "/" + name);
    assert JoinPath(parts[1..]) == "main" + "/" + ("resources" + "/" + ("models" + "/" + name));
  }

  lemma FileIsResource(name: string, extension: string)
    ensures JoinPath(ResourcesParts + [BestFileName(name, extension)])
         == "src/main/resources/" + BestModelResource(name, extension)
  {
    var rest := name + "." + extension;
    JoinPathResources(BestFileName(name, extension));
    assert BestFileName(name, extension) == "best_" + rest;
    assert BestModelResource(name, extension) == BestPrefix + rest;
    ConcatAssoc("src/main/resources/models/", "best_", rest);
    ConcatAssoc("src/main/resources/", BestPrefix, rest);
    assert "src/main/resources/models/" + "best_" == "src/main/resources/" + BestPrefix;
  }
}
