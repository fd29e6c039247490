/**
  Where generate mode writes its code (csv2map.go:186-189): the input
  file's directory joined with `csv2map_<map>.go` by `filepath.Join`, which
  cleans the joined path. Paths use the Unix separator '/'.
 */
module OutputPath {
  import Text

  const PathSeparator: char := '/'

  /** A path cut into its directory (with its trailing separator) and its final element. */
  datatype PathParts = PathParts(dir: string, file: string)

  /** A legal directory part: empty, or ending in a separator. */
  predicate IsDirPart(dir: string)
  {
    dir == [] || dir[|dir| - 1] == PathSeparator
  }

  /**
    filepath.Split: cut `path` just after its last separator. The two parts
    concatenate to `path`, and the file part holds no separator.
   */
  function Split(path: string): (r: PathParts)
    ensures r.dir + r.file == path
    ensures PathSeparator !in r.file
    ensures IsDirPart(r.dir)
    decreases |path|
  {
    if path == [] then PathParts([], [])
    else if path[|path| - 1] == PathSeparator then PathParts(path, [])
    else
      var p := Split(path[..|path| - 1]);
      PathParts(p.dir, p.file + [path[|path| - 1]])
  }

  /** The decomposition Split promises is the only one: any directory part followed by a separator-free file part splits back into those two. */
  lemma {:induction false} SplitUnique(dir: string, file: string)
    requires IsDirPart(dir) && PathSeparator !in file
    ensures Split(dir + file) == PathParts(dir, file)
    decreases |file|
  {
    if file == [] {
      assert dir + file == dir;
    } else {
      var init, last := file[..|file| - 1], file[|file| - 1];
      assert file == init + [last];
      Text.Associative(dir, init, [last]);
      var path := (dir + init) + [last];
      assert path[..|path| - 1] == dir + init;
      SplitUnique(dir, init);
    }
  }

  /** A path without separators has no directory part. */
  lemma SplitWithoutSeparator(path: string)
    ensures PathSeparator !in path ==> Split(path) == PathParts([], path)
  {
    if PathSeparator !in path {
      SplitUnique([], path);
      assert [] + path == path;
    }
  }

  /** A path element that Clean keeps as it is: not empty, not `.` and not `..`. */
  predicate IsPlainElement(e: string)
  {
    e != "" && e != "." && e != ".."
  }

  /**
    Clean's lexical processing of a path's elements, left to right, onto the
    elements kept so far. Empty and `.` elements vanish. A `..` removes the
    kept element before it, unless there is none or that one is itself
    `..`; it is then kept, or dropped at the root of a rooted path.
   */
  function Resolve(kept: seq<string>, elements: seq<string>, rooted: bool): seq<string>
    decreases |elements|
  {
    if elements == [] then kept
    else
      var e := elements[0];
      var next :=
        if e == "" || e == "." then kept
        else if e == ".." then
          if kept != [] && kept[|kept| - 1] != ".." then kept[..|kept| - 1]
          else if rooted then kept
          else kept + [e]
        else kept + [e];
      Resolve(next, elements[1..], rooted)
  }

  /** Resolving two runs of elements one after the other is resolving them together. */
  lemma {:induction false} ResolveAppend(kept: seq<string>, a: seq<string>, b: seq<string>, rooted: bool)
    ensures Resolve(kept, a + b, rooted) == Resolve(Resolve(kept, a, rooted), b, rooted)
    decreases |a|
  {
    if a == [] {
      assert a + b == b;
    } else {
      assert (a + b)[0] == a[0] && (a + b)[1..] == a[1..] + b;
      var e := a[0];
      var next :=
        if e == "" || e == "." then kept
        else if e == ".." then
          if kept != [] && kept[|kept| - 1] != ".." then kept[..|kept| - 1]
          else if rooted then kept
          else kept + [e]
        else kept + [e];
      ResolveAppend(next, a[1..], b, rooted);
    }
  }

  /**
    filepath.Clean: the shortest path naming the same file by lexical
    processing alone, "." for the empty path. A rooted path keeps its
    leading separator, and no result ends in a separator except the root.
   */
  function Clean(path: string): (r: string)
    ensures r != []
  {
    if path == [] then "."
    else
      var rooted := path[0] == PathSeparator;
      var body := Text.Join(Resolve([], Text.Split(path, PathSeparator), rooted), PathSeparator);
      if rooted then [PathSeparator] + body
      else if body == [] then "."
      else body
  }

  /**
    filepath.Join(dir, name) for a non-empty `name`: the cleaned `name` when
    `dir` is empty, otherwise the cleaned path of `dir`, a separator and `name`.
   */
  function Join(dir: string, name: string): (r: string)
    ensures r != []
  {
    if dir == [] then Clean(name) else Clean(dir + [PathSeparator] + name)
  }

  /**
    The directory `dir` names once cleaned, written as a directory part:
    empty for the current directory, otherwise ending in one separator.
   */
  function CleanDir(dir: string): (r: string)
    ensures IsDirPart(r)
  {
    if dir == [] then []
    else
      var rooted := dir[0] == PathSeparator;
      var kept := Resolve([], Text.Split(dir, PathSeparator), rooted);
      var tail := if kept == [] then [] else Text.Join(kept, PathSeparator) + [PathSeparator];
      if rooted then [PathSeparator] + tail else tail
  }

  /** A plain element is kept as it is. */
  lemma ResolvePlain(kept: seq<string>, name: string, rooted: bool)
    requires IsPlainElement(name)
    ensures Resolve(kept, [name], rooted) == kept + [name]
  {
    assert [name][1..] == [];
  }

  /** Cleaning elements kept after a plain element: the kept directory, a separator, then the element. */
  lemma JoinKept(kept: seq<string>, name: string)
    ensures Text.Join(kept + [name], PathSeparator)
      == (if kept == [] then [] else Text.Join(kept, PathSeparator) + [PathSeparator]) + name
  {
    if kept == [] {
      assert kept + [name] == [name];
    } else {
      Text.JoinSnoc(kept, name, PathSeparator);
    }
  }

  /** Joining a plain element without separators onto a directory appends it to the cleaned directory. */
  lemma JoinPlainElement(dir: string, name: string)
    requires IsPlainElement(name) && PathSeparator !in name
    ensures Join(dir, name) == CleanDir(dir) + name
  {
    assert Text.Split(name, PathSeparator) == [name];
    if dir == [] {
      ResolvePlain([], name, false);
      assert name[0] != PathSeparator;
    } else {
      var path := dir + [PathSeparator] + name;
      var rooted := dir[0] == PathSeparator;
      var elements := Text.Split(dir, PathSeparator);
      var kept := Resolve([], elements, rooted);
      var tail := if kept == [] then [] else Text.Join(kept, PathSeparator) + [PathSeparator];
      Text.SplitConcat(dir, name, PathSeparator);
      assert Text.Split(path, PathSeparator) == elements + [name];
      ResolveAppend([], elements, [name], rooted);
      ResolvePlain(kept, name, rooted);
      assert Resolve([], Text.Split(path, PathSeparator), rooted) == kept + [name];
      JoinKept(kept, name);
      var body := tail + name;
      assert path[0] == dir[0];
      assert Clean(path) == if rooted then [PathSeparator] + body else body;
      assert CleanDir(dir) == if rooted then [PathSeparator] + tail else tail;
    }
  }

  /** The generated file's name for a map (csv2map.go:188). */
  function OutputFileName(mapName: string): (name: string)
    ensures |name| >= |"csv2map_.go"|
  {
    "csv2map_" + mapName + ".go"
  }

  /** For a map name without separators, the generated file's name is one plain path element. */
  lemma OutputFileNameIsElement(mapName: string)
    requires PathSeparator !in mapName
    ensures IsPlainElement(OutputFileName(mapName)) && PathSeparator !in OutputFileName(mapName)
  {
    var name := OutputFileName(mapName);
    assert forall i :: 8 <= i < 8 + |mapName| ==> name[i] == mapName[i - 8];
  }

  /**
    getOutputPath: never fails and never returns the empty path. For a map
    name without separators, it is the input's cleaned directory followed by
    the generated file's name, and just that name when the input path has no
    directory (in particular when input comes from stdin, path "").
   */
  function GetOutputPath(filePath: string, mapName: string): (r: string)
    ensures r != []
    ensures PathSeparator !in mapName ==> r == CleanDir(Split(filePath).dir) + OutputFileName(mapName)
    ensures PathSeparator !in mapName && PathSeparator !in filePath ==> r == OutputFileName(mapName)
  {
    var name := OutputFileName(mapName);
    var dir := Split(filePath).dir;
    if PathSeparator in mapName then Join(dir, name)
    else
      OutputFileNameIsElement(mapName);
      JoinPlainElement(dir, name);
      SplitWithoutSeparator(filePath);
      Join(dir, name)
  }

  /**
    The output is a sibling of the input: for a map name without
    separators, splitting it gives the input's cleaned directory and the
    generated file's name.
   */
  lemma OutputIsSibling(filePath: string, mapName: string)
    requires PathSeparator !in mapName
    ensures Split(GetOutputPath(filePath, mapName)) == PathParts(CleanDir(Split(filePath).dir), OutputFileName(mapName))
  {
    OutputFileNameIsElement(mapName);
    SplitUnique(CleanDir(Split(filePath).dir), OutputFileName(mapName));
  }

  /** Text without separators is a single element. */
  lemma SingleElement(t: string)
    requires forall i :: 0 <= i < |t| ==> t[i] != PathSeparator
    ensures Text.Split(t, PathSeparator) == [t]
  {
    assert PathSeparator !in t;
  }

  /** Cleaning a relative path joins the elements it keeps, or gives "." when it keeps none. */
  lemma CleanRelative(path: string)
    requires path != [] && path[0] != PathSeparator
    ensures var body := Text.Join(Resolve([], Text.Split(path, PathSeparator), false), PathSeparator);
      Clean(path) == if body == [] then "." else body
  {
  }

  /** Input from stdin: the output path is the generated name, cleaned. */
  lemma OutputForStdin(mapName: string)
    ensures GetOutputPath("", mapName) == Clean(OutputFileName(mapName))
  {
    assert Split("") == PathParts([], []);
  }

  /** The generated name of a map name made of `/../` and a separator-free `x`. */
  lemma ClimbingElements(x: string)
    requires PathSeparator !in x
    ensures Text.Split(OutputFileName("/../" + x), PathSeparator) == ["csv2map_", "..", x + ".go"]
  {
    var last := x + ".go";
    var rest := ".." + [PathSeparator] + last;
    assert OutputFileName("/../" + x) == "csv2map_" + [PathSeparator] + rest;
    SingleElement("csv2map_");
    SingleElement("..");
    assert PathSeparator !in last;
    Text.SplitConcat("..", last, PathSeparator);
    Text.SplitConcat("csv2map_", rest, PathSeparator);
    Text.Associative(["csv2map_"], [".."], [last]);
  }

  /**
    A map name holding separators is cleaned too: with a map name `/../x`,
    the `..` climbs out of `csv2map_` and the output is `x.go`.
   */
  lemma ClimbingMapName(x: string)
    requires PathSeparator !in x
    ensures GetOutputPath("", "/../" + x) == x + ".go"
  {
    var name := OutputFileName("/../" + x);
    var last := x + ".go";
    OutputForStdin("/../" + x);
    ClimbingElements(x);
    assert IsPlainElement(last) by {
      assert |last| >= 3;
    }
    var elements := ["csv2map_", "..", last];
    assert Resolve([], elements, false) == [last] by {
      assert elements[1..] == ["..", last] && elements[2..] == [last];
      ResolvePlain([], last, false);
    }
    assert name[0] != PathSeparator;
    CleanRelative(name);
  }

  /** The generated name of a map name made of `a`, two separators and `b`, both separator-free. */
  lemma DoubledSeparatorElements(a: string, b: string)
    requires PathSeparator !in a && PathSeparator !in b
    ensures Text.Split(OutputFileName(a + "//" + b), PathSeparator) == ["csv2map_" + a, "", b + ".go"]
  {
    var first, last := "csv2map_" + a, b + ".go";
    var rest := "" + [PathSeparator] + last;
    assert OutputFileName(a + "//" + b) == first + [PathSeparator] + rest;
    assert PathSeparator !in first by {
      assert forall i :: 8 <= i < |first| ==> first[i] == a[i - 8];
    }
    SingleElement("");
    assert PathSeparator !in last;
    Text.SplitConcat("", last, PathSeparator);
    Text.SplitConcat(first, rest, PathSeparator);
    Text.Associative([first], [""], [last]);
  }

  /**
    A map name holding separators is cleaned too: with a map name `a//b`,
    the two separators become one.
   */
  lemma DoubledSeparatorMapName(a: string, b: string)
    requires PathSeparator !in a && PathSeparator !in b
    ensures GetOutputPath("", a + "//" + b) == "csv2map_" + a + "/" + b + ".go"
  {
    var name := OutputFileName(a + "//" + b);
    var first, last := "csv2map_" + a, b + ".go";
    OutputForStdin(a + "//" + b);
    DoubledSeparatorElements(a, b);
    assert IsPlainElement(first) && IsPlainElement(last) by {
      assert |first| >= 8 && |last| >= 3;
    }
    EmptyBetweenPlain(first, last);
    assert name[0] != PathSeparator;
    CleanRelative(name);
  }

  /** An empty element between two plain ones vanishes, and the two are joined by one separator. */
  lemma EmptyBetweenPlain(first: string, last: string)
    requires IsPlainElement(first) && IsPlainElement(last)
    ensures Text.Join(Resolve([], [first, "", last], false), PathSeparator) == first + "/" + last
  {
    var elements := [first, "", last];
    assert elements[1..] == ["", last] && ["", last][1..] == [last];
    assert [] + [first] == [first];
    assert Resolve([], elements, false) == Resolve([first], ["", last], false);
    assert Resolve([first], ["", last], false) == Resolve([first], [last], false);
    ResolvePlain([first], last, false);
    assert [first, last][1..] == [last];
  }
}
