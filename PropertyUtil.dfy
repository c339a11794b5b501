/**
 * PropertyUtil: property lookup with system-property override, and the
 * search for a properties file: the bare file name, then the file name in
 * each configured directory in order, then the classpath. The file system,
 * URL handling and the classpath are oracles supplied by the caller.
 */
module PropertyUtil {
  import opened Wrappers

  /** A property table, as java.util.Properties holds it. */
  type Table = map<string, string>

  /** getProperty(props, propname, defVal): the system property when one is
      set, else the value `props` gives when `props` is non-null and defines
      the name, else the default. System.getProperty refuses the empty name
      with IllegalArgumentException before any of this. */
  function GetProperty(system: Table, props: Option<Table>, propname: string, defVal: Option<string>)
    : (r: Result<Option<string>, PropertyError>)
    ensures r.Failure? <==> propname == ""
    ensures r.Failure? ==> r.error == EmptyKey
    ensures propname != "" && propname in system ==> r == Success(Some(system[propname]))
    ensures propname != "" && propname !in system && props.Some? && propname in props.value ==>
              r == Success(Some(props.value[propname]))
    ensures propname != "" && propname !in system && (props.None? || propname !in props.value) ==> r == Success(defVal)
  {
    if propname == "" then Failure(EmptyKey)
    else if propname in system then Success(Some(system[propname]))
    else if props.Some? && propname in props.value then Success(Some(props.value[propname]))
    else Success(defVal)
  }

  /** getProperty(props, propname): the three-argument lookup with a null default. */
  function GetPropertyOrNull(system: Table, props: Option<Table>, propname: string): (r: Result<Option<string>, PropertyError>)
    ensures r.Failure? <==> propname == ""
    ensures r.Success? ==> (r.value.None? <==> propname !in system && (props.None? || propname !in props.value))
    ensures r.Success? && r.value.Some? ==> r == GetProperty(system, props, propname, Some(r.value.value))
  {
    GetProperty(system, props, propname, None)
  }

  /** A system property hides the file's value and the default alike. */
  lemma SystemPropertyOverrides(system: Table, p1: Option<Table>, p2: Option<Table>, propname: string, d1: Option<string>, d2: Option<string>)
    requires propname in system
    ensures GetProperty(system, p1, propname, d1) == GetProperty(system, p2, propname, d2)
  {
  }

  /** The lookup never invents a value: what it returns comes from the system
      properties, the property table or the default. */
  lemma GetPropertySources(system: Table, props: Option<Table>, propname: string, defVal: Option<string>)
    ensures var r := GetProperty(system, props, propname, defVal);
            r.Success? && r.value.Some? ==>
              (propname in system && r.value.value == system[propname])
              || (props.Some? && propname in props.value && r.value.value == props.value[propname])
              || r.value == defVal
  {
  }

  /** The platform behind the file search: which paths name an existing,
      readable regular file; the child path `File(parent, name)`; a file's
      absolute path and its URL (None where toURL throws
      MalformedURLException); and the two classpath lookups. */
  datatype Platform = Platform(
    readableFile: string -> bool,
    child: (string, string) -> string,
    absolutePath: string -> string,
    fileUrl: string -> Option<string>,
    classLoaderResource: string -> Option<string>,
    classResource: string -> Option<string>)

  /** Why a properties file cannot be had. */
  datatype PropertyError =
    /** Neither a readable file nor a classpath resource was found (IllegalArgumentException). */
    | NotFound(propertyFileName: string)
    /** The URL could not be opened (IllegalArgumentException). */
    | Unopenable(url: string)
    /** The stream could not be loaded as properties (IOException, rethrown as IllegalArgumentException). */
    | Unloadable(name: string)
    /** System.getProperty was asked for the empty name (IllegalArgumentException). */
    | EmptyKey

  /** The files tried, in order: the bare name, then the name in each
      directory; none when there is no directory list. */
  function Candidates(platform: Platform, propertyPaths: Option<seq<string>>, propertyFileName: string): (cs: seq<string>)
    ensures propertyPaths.None? ==> cs == []
    ensures propertyPaths.Some? ==> |cs| == |propertyPaths.value| + 1 && cs[0] == propertyFileName
    ensures propertyPaths.Some? ==> forall i :: 1 <= i < |cs| ==> cs[i] == platform.child(propertyPaths.value[i - 1], propertyFileName)
  {
    match propertyPaths
    case None => []
    case Some(paths) => [propertyFileName] + seq(|paths|, i requires 0 <= i < |paths| => platform.child(paths[i], propertyFileName))
  }

  /** The position of the first readable file among the candidates. */
  function FirstReadable(platform: Platform, cs: seq<string>): (k: Option<nat>)
    ensures k.Some? ==> k.value < |cs| && platform.readableFile(cs[k.value])
    ensures k.Some? ==> forall j :: 0 <= j < k.value ==> !platform.readableFile(cs[j])
    ensures k.None? ==> forall j :: 0 <= j < |cs| ==> !platform.readableFile(cs[j])
    decreases |cs|
  {
    if cs == [] then None
    else if platform.readableFile(cs[0]) then Some(0)
    else match FirstReadable(platform, cs[1..])
      case None => None
      case Some(k) => Some(k + 1)
  }

  /** The classpath fallback: the class loader's resource, else the class's
      resource "/" + name, else not found. */
  function ResourceURL(platform: Platform, propertyFileName: string): (r: Result<string, PropertyError>)
    ensures r.Failure? <==> platform.classLoaderResource(propertyFileName).None? && platform.classResource("/" + propertyFileName).None?
  {
    match platform.classLoaderResource(propertyFileName)
    case Some(url) => Success(url)
    case None =>
      match platform.classResource("/" + propertyFileName)
      case Some(url) => Success(url)
      case None => Failure(NotFound(propertyFileName))
  }

  /** The URL of the first readable candidate, when it has one. The search
      stops at the first readable file even when its URL is malformed. */
  function FoundFileURL(platform: Platform, propertyPaths: Option<seq<string>>, propertyFileName: string): Option<string>
  {
    var cs := Candidates(platform, propertyPaths, propertyFileName);
    match FirstReadable(platform, cs)
    case None => None
    case Some(k) => platform.fileUrl(cs[k])
  }

  /** getPropertyFileAbsoluteURL's result: the file's URL when the file search
      found one, else the classpath fallback. */
  function AbsoluteURL(platform: Platform, propertyPaths: Option<seq<string>>, propertyFileName: string): Result<string, PropertyError>
  {
    match FoundFileURL(platform, propertyPaths, propertyFileName)
    case Some(url) => Success(url)
    case None => ResourceURL(platform, propertyFileName)
  }

  /** The first readable candidate wins over every later candidate and over
      the classpath, whatever they hold. */
  lemma FirstReadableWins(platform: Platform, propertyPaths: Option<seq<string>>, propertyFileName: string, k: nat)
    requires var cs := Candidates(platform, propertyPaths, propertyFileName);
             k < |cs| && platform.readableFile(cs[k]) && (forall j :: 0 <= j < k ==> !platform.readableFile(cs[j]))
             && platform.fileUrl(cs[k]).Some?
    ensures AbsoluteURL(platform, propertyPaths, propertyFileName)
            == Success(platform.fileUrl(Candidates(platform, propertyPaths, propertyFileName)[k]).value)
  {
    FirstReadableAt(platform, Candidates(platform, propertyPaths, propertyFileName), k);
  }

  /** A readable bare file name is used before any directory is tried. */
  lemma BareNameFirst(platform: Platform, paths: seq<string>, propertyFileName: string)
    requires platform.readableFile(propertyFileName) && platform.fileUrl(propertyFileName).Some?
    ensures AbsoluteURL(platform, Some(paths), propertyFileName) == Success(platform.fileUrl(propertyFileName).value)
  {
    FirstReadableWins(platform, Some(paths), propertyFileName, 0);
  }

  /** Without a directory list no file is tried: the classpath decides. */
  lemma NoPathsMeansClasspath(platform: Platform, propertyFileName: string)
    ensures AbsoluteURL(platform, None, propertyFileName) == ResourceURL(platform, propertyFileName)
  {
  }

  /** The search fails exactly when no candidate yields a file URL and neither
      classpath lookup finds the name. */
  lemma {:induction false} NotFoundExactly(platform: Platform, propertyPaths: Option<seq<string>>, propertyFileName: string)
    ensures var cs := Candidates(platform, propertyPaths, propertyFileName);
            AbsoluteURL(platform, propertyPaths, propertyFileName).Failure? <==>
              (forall j :: 0 <= j < |cs| && platform.readableFile(cs[j]) && (forall i :: 0 <= i < j ==> !platform.readableFile(cs[i]))
                  ==> platform.fileUrl(cs[j]).None?)
              && platform.classLoaderResource(propertyFileName).None?
              && platform.classResource("/" + propertyFileName).None?
  {
    var cs := Candidates(platform, propertyPaths, propertyFileName);
    var first := FirstReadable(platform, cs);
    if first.Some? {
      forall j | 0 <= j < |cs| && platform.readableFile(cs[j]) && (forall i :: 0 <= i < j ==> !platform.readableFile(cs[i]))
        ensures j == first.value
      {
        FirstReadableAt(platform, cs, j);
      }
    }
  }

  /** getPropertyFileAbsoluteURL: tries the bare name, then each directory in
      order, stopping at the first readable file; records that file's absolute
      path in inputSource[0] once its URL is made; falls back to the classpath
      when no file URL was made. */
  method GetPropertyFileAbsoluteURL(platform: Platform, propertyPaths: Option<seq<string>>, propertyFileName: string,
                                    inputSource: array?<Option<string>>)
    returns (r: Result<string, PropertyError>)
    modifies inputSource
    ensures r == AbsoluteURL(platform, propertyPaths, propertyFileName)
    ensures inputSource != null && inputSource.Length >= 1 ==>
              var cs := Candidates(platform, propertyPaths, propertyFileName);
              var first := FirstReadable(platform, cs);
              if first.Some? && platform.fileUrl(cs[first.value]).Some?
              then inputSource[..] == old(inputSource[..])[0 := Some(platform.absolutePath(cs[first.value]))]
              else inputSource[..] == old(inputSource[..])
    ensures inputSource != null && inputSource.Length < 1 ==> inputSource[..] == old(inputSource[..])
  {
    var fullPathName: Option<string> := None;
    if propertyPaths.Some? {
      var paths := propertyPaths.value;
      ghost var cs := Candidates(platform, propertyPaths, propertyFileName);
      var propertyFile := propertyFileName;
      var pathCnt := 0;
      while true
        invariant pathCnt <= |paths| && propertyFile == cs[pathCnt]
        invariant forall j :: 0 <= j < pathCnt ==> !platform.readableFile(cs[j])
        invariant fullPathName == None
        invariant inputSource != null ==> inputSource[..] == old(inputSource[..])
        decreases |paths| - pathCnt
      {
        if platform.readableFile(propertyFile) {
          fullPathName := platform.fileUrl(propertyFile);
          if fullPathName.Some? && inputSource != null && inputSource.Length >= 1 {
            inputSource[0] := Some(platform.absolutePath(propertyFile));
          }
          FirstReadableAt(platform, cs, pathCnt);
          break;
        }
        if pathCnt < |paths| {
          propertyFile := platform.child(paths[pathCnt], propertyFileName);
        }
        pathCnt := pathCnt + 1;
        if pathCnt > |paths| {
          FirstReadableNone(platform, cs);
          break;
        }
      }
    }
    if fullPathName.None? {
      var url := platform.classLoaderResource(propertyFileName);
      if url.None? {
        url := platform.classResource("/" + propertyFileName);
      }
      if url.None? {
        return Failure(NotFound(propertyFileName));
      }
      fullPathName := url;
    }
    r := Success(fullPathName.value);
  }

  lemma FirstReadableAt(platform: Platform, cs: seq<string>, k: nat)
    requires k < |cs| && platform.readableFile(cs[k]) && forall j :: 0 <= j < k ==> !platform.readableFile(cs[j])
    ensures FirstReadable(platform, cs) == Some(k)
  {
  }

  lemma FirstReadableNone(platform: Platform, cs: seq<string>)
    requires forall j :: 0 <= j < |cs| ==> !platform.readableFile(cs[j])
    ensures FirstReadable(platform, cs) == None
  {
  }

  /** loadProperties reads XML exactly when the name ends in ".xml" or ".XML". */
  predicate UsesXmlLoader(name: string) {
    EndsWith(name, ".xml") || EndsWith(name, ".XML")
  }

  predicate EndsWith(s: string, suffix: string) {
    |suffix| <= |s| && s[|s| - |suffix|..] == suffix
  }

  /** Mixed-case suffixes such as ".Xml" take the plain loader. */
  lemma MixedCaseIsPlain(stem: string)
    ensures !UsesXmlLoader(stem + ".Xml") && !UsesXmlLoader(stem + ".xML")
    ensures UsesXmlLoader(stem + ".xml") && UsesXmlLoader(stem + ".XML")
  {
    var a := stem + ".Xml";
    assert a[|a| - 4..] == ".Xml";
    var b := stem + ".xML";
    assert b[|b| - 4..] == ".xML";
    var c := stem + ".xml";
    assert c[|c| - 4..] == ".xml";
    var d := stem + ".XML";
    assert d[|d| - 4..] == ".XML";
  }

  /** The stream side of loading: opening a URL (None where openStream throws),
      the two property-file parsers (None where they throw IOException) and
      the parent directory of a path. */
  datatype Loader = Loader(
    openStream: string -> Option<string>,
    loadXml: string -> Option<Table>,
    loadPlain: string -> Option<Table>,
    parent: string -> string)

  /** The table a stream holds, read with the loader the name selects. */
  function Parse(loader: Loader, name: string, content: string): (r: Result<Table, PropertyError>)
    ensures var parsed := if UsesXmlLoader(name) then loader.loadXml(content) else loader.loadPlain(content);
            (r.Success? ==> parsed == Some(r.value)) && (r.Failure? ==> parsed.None? && r.error == Unloadable(name))
  {
    match (if UsesXmlLoader(name) then loader.loadXml(content) else loader.loadPlain(content))
    case None => Failure(Unloadable(name))
    case Some(t) => Success(t)
  }

  /** getPropertyFileInputStream(url): the stream behind the URL. */
  function OpenURL(loader: Loader, url: string): (r: Result<string, PropertyError>)
    ensures r.Failure? <==> loader.openStream(url).None?
  {
    match loader.openStream(url)
    case None => Failure(Unopenable(url))
    case Some(content) => Success(content)
  }

  /** loadProperties(url): the properties behind a URL, read as XML when the
      URL ends in ".xml" or ".XML". */
  function LoadPropertiesFromURL(loader: Loader, fullFilenameURLStr: string): (r: Result<Table, PropertyError>)
    ensures loader.openStream(fullFilenameURLStr).None? ==> r == Failure(Unopenable(fullFilenameURLStr))
    ensures r.Success? ==>
              && loader.openStream(fullFilenameURLStr).Some?
              && (UsesXmlLoader(fullFilenameURLStr) ==> loader.loadXml(loader.openStream(fullFilenameURLStr).value) == Some(r.value))
              && (!UsesXmlLoader(fullFilenameURLStr) ==> loader.loadPlain(loader.openStream(fullFilenameURLStr).value) == Some(r.value))
  {
    match OpenURL(loader, fullFilenameURLStr)
    case Failure(e) => Failure(e)
    case Success(content) => Parse(loader, fullFilenameURLStr, content)
  }

  /** loadProperties(paths, name, showName, filenameProperty): finds the file,
      opens it, reads it with the loader its name selects and, when a
      filename property is named and the file was found on the file search,
      sets that property to the directory holding the file. */
  method LoadProperties(platform: Platform, loader: Loader, propertyPaths: Option<seq<string>>, propertyFileName: string,
                        filenameProperty: Option<string>)
    returns (r: Result<Table, PropertyError>)
    ensures r == LoadedProperties(platform, loader, propertyPaths, propertyFileName, filenameProperty)
  {
    var inputStreamSource := new Option<string>[1](_ => None);
    var url := GetPropertyFileAbsoluteURL(platform, propertyPaths, propertyFileName, inputStreamSource);
    if url.Failure? {
      return Failure(url.error);
    }
    var content := OpenURL(loader, url.value);
    if content.Failure? {
      return Failure(content.error);
    }
    var props := Parse(loader, propertyFileName, content.value);
    if props.Failure? {
      return props;
    }
    var table := props.value;
    if filenameProperty.Some? && inputStreamSource[0].Some? {
      table := table[filenameProperty.value := loader.parent(inputStreamSource[0].value)];
    }
    r := Success(table);
  }

  /** The directory of the file the file search found, when it found one whose URL could be made. */
  function FoundDirectory(platform: Platform, loader: Loader, propertyPaths: Option<seq<string>>, propertyFileName: string): Option<string>
  {
    var cs := Candidates(platform, propertyPaths, propertyFileName);
    match FirstReadable(platform, cs)
    case None => None
    case Some(k) =>
      if platform.fileUrl(cs[k]).Some? then Some(loader.parent(platform.absolutePath(cs[k]))) else None
  }

  /** What loadProperties(paths, name, showName, filenameProperty) yields. */
  function LoadedProperties(platform: Platform, loader: Loader, propertyPaths: Option<seq<string>>, propertyFileName: string,
                            filenameProperty: Option<string>): Result<Table, PropertyError>
  {
    match AbsoluteURL(platform, propertyPaths, propertyFileName)
    case Failure(e) => Failure(e)
    case Success(url) =>
      match OpenURL(loader, url)
      case Failure(e) => Failure(e)
      case Success(content) =>
        match Parse(loader, propertyFileName, content)
        case Failure(e) => Failure(e)
        case Success(table) =>
          var dir := FoundDirectory(platform, loader, propertyPaths, propertyFileName);
          if filenameProperty.Some? && dir.Some? then Success(table[filenameProperty.value := dir.value])
          else Success(table)
  }

  /** A properties file found on the classpath never sets the filename
      property: only a file found on the file search has a directory. */
  lemma ClasspathSetsNoFilenameProperty(platform: Platform, loader: Loader, propertyPaths: Option<seq<string>>,
                                        propertyFileName: string, filenameProperty: Option<string>)
    requires FoundFileURL(platform, propertyPaths, propertyFileName).None?
    ensures var r := LoadedProperties(platform, loader, propertyPaths, propertyFileName, filenameProperty);
            var url := ResourceURL(platform, propertyFileName);
            r.Success? ==> url.Success? && OpenURL(loader, url.value).Success?
                           && Parse(loader, propertyFileName, OpenURL(loader, url.value).value) == r
  {
  }
}
