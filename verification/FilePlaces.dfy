/** Where the names in a torrent lead to: path.join, in terms of the text of the names. */
module FilePlaces {
  import opened Bytes
  import opened FileWriter

  /** The parts with '/' between them. */
  function Slashed(parts: seq<string>): string {
    if parts == [] then "" else if |parts| == 1 then parts[0] else parts[0] + "/" + Slashed(parts[1..])
  }

  ghost predicate NoSlash(parts: seq<string>) {
    forall i :: 0 <= i < |parts| ==> '/' !in parts[i]
  }

  /** Parts that lead down: not empty, neither "." nor "..". */
  ghost predicate Plain(parts: seq<string>) {
    NoSlash(parts) && forall i :: 0 <= i < |parts| ==> parts[i] != "" && parts[i] != "." && parts[i] != ".."
  }

  /** A name is split at its slashes: the parts have none, and put together again they are the name. */
  lemma SplitIs(name: string)
    ensures NoSlash(Split(name)) && Slashed(Split(name)) == name
  {
    PartsBare(name);
    PartsJoined(name);
  }

  lemma {:induction false} PartsBare(name: string)
    ensures NoSlash(Split(name))
  {
    if name != "" {
      var rest := Split(name[1..]);
      PartsBare(name[1..]);
      assert '/' !in rest[0];
      assert forall c :: c in [name[0]] + rest[0] ==> c == name[0] || c in rest[0];
    }
  }

  lemma {:induction false} PartsJoined(name: string)
    ensures Slashed(Split(name)) == name
  {
    if name != "" {
      var rest := Split(name[1..]);
      PartsJoined(name[1..]);
      hide Split;
      if name[0] == '/' {
        assert ([""] + rest)[1..] == rest;
        assert "" + "/" + name[1..] == name;
      } else {
        SlashedLonger(name[0], rest);
      }
    }
  }

  lemma SlashedLonger(c: char, parts: seq<string>)
    requires parts != []
    ensures Slashed([[c] + parts[0]] + parts[1..]) == [c] + Slashed(parts)
  {
    var longer := [[c] + parts[0]] + parts[1..];
    assert longer[1..] == parts[1..];
    if |parts| > 1 {
      var tail := Slashed(parts[1..]);
      hide Slashed;
      assert ([c] + parts[0]) + "/" + tail == [c] + (parts[0] + "/" + tail);
    }
  }

  lemma {:induction false} SplitFirst(part: string, rest: string)
    requires '/' !in part
    ensures Split(part) == [part] && Split(part + "/" + rest) == [part] + Split(rest)
  {
    if part == "" {
      assert part + "/" + rest == "/" + rest;
      assert ("/" + rest)[1..] == rest;
    } else {
      SplitFirst(part[1..], rest);
      assert (part + "/" + rest)[1..] == part[1..] + "/" + rest;
      assert [part[0]] + part[1..] == part;
    }
  }

  lemma {:induction false} SplitSlashed(parts: seq<string>)
    requires parts != [] && NoSlash(parts)
    ensures Split(Slashed(parts)) == parts
  {
    if |parts| == 1 {
      SplitFirst(parts[0], "");
    } else {
      SplitSlashed(parts[1..]);
      SplitFirst(parts[0], Slashed(parts[1..]));
      assert [parts[0]] + parts[1..] == parts;
    }
  }

  lemma {:induction false} WalkAppend(p: Path, a: seq<string>, b: seq<string>)
    ensures Walk(p, a + b) == Walk(Walk(p, a), b)
    decreases |a|
  {
    if a == [] {
      assert a + b == b;
    } else {
      assert (a + b)[1..] == a[1..] + b;
      WalkAppend(if a[0] == "" || a[0] == "." then p else if a[0] == ".." then Parent(p) else p + [a[0]], a[1..], b);
    }
  }

  lemma {:induction false} WalkDown(p: Path, parts: seq<string>)
    requires Plain(parts)
    ensures Walk(p, parts) == p + parts
    decreases |parts|
  {
    if parts != [] {
      WalkDown(p + [parts[0]], parts[1..]);
      assert parts == [parts[0]] + parts[1..];
    } else {
      assert p + [] == p;
    }
  }

  /** A name made of plain parts leads straight down from the base; with a '/' at its end that is kept. */
  lemma JoinDown(base: Path, parts: seq<string>)
    requires parts != [] && Plain(parts)
    ensures Join(base, Slashed(parts)) == base + parts
    ensures Join(base, Slashed(parts) + "/") == base + parts + [""]
  {
    SplitSlashed(parts);
    WalkDown(base, parts);
    LastChar(parts);
    SlashedSnoc(parts, "");
    SplitSlashed(parts + [""]);
    WalkAppend(base, parts, [""]);
    assert Slashed(parts) + "/" + "" == Slashed(parts) + "/" && [""][1..] == [];
    SlashedParts(parts);
  }

  lemma SlashedParts(parts: seq<string>)
    requires Plain(parts)
    ensures NoSlash(parts + [""])
  {
  }

  lemma {:induction false} LastChar(parts: seq<string>)
    requires parts != [] && Plain(parts)
    ensures Slashed(parts) != "" && !EndsInSlash(Slashed(parts)) && EndsInSlash(Slashed(parts) + "/")
  {
    if |parts| > 1 {
      LastChar(parts[1..]);
    } else {
      var c := parts[0][|parts[0]| - 1];
      assert c in parts[0];
    }
  }

  lemma {:induction false} SlashedSnoc(parts: seq<string>, last: string)
    requires parts != []
    ensures Slashed(parts + [last]) == Slashed(parts) + "/" + last
  {
    if |parts| == 1 {
      assert (parts + [last])[1..] == [last];
    } else {
      assert (parts + [last])[1..] == parts[1..] + [last];
      SlashedSnoc(parts[1..], last);
    }
  }

  /** Empty parts and "." do not matter, ".." takes back the plain part before it, and at the root it does nothing. */
  lemma DotsGo(p: Path, a: seq<string>, b: seq<string>, part: string, dot: string)
    requires Plain([part]) && (dot == "" || dot == ".")
    ensures Walk(p, a + [dot] + b) == Walk(p, a + b) == Walk(p, a + [part, ".."] + b)
    ensures Walk([], [".."] + b) == Walk([], b)
  {
    assert [part][0] == part;
    var q := Walk(p, a);
    WalkAppend(p, a, b);
    WalkAppend(p, a + [dot], b);
    WalkAppend(p, a, [dot]);
    WalkAppend(p, a + [part, ".."], b);
    WalkAppend(p, a, [part, ".."]);
    assert [part, ".."][1..] == [".."] && [".."][1..] == [] && [dot][1..] == [];
    assert Walk(q + [part], [".."]) == Parent(q + [part]) == q;
    assert ([".."] + b)[1..] == b;
  }

  /** A list of files under plain names, in a download path: each file at its own place below the base. */
  lemma PlacesOfList(downloadPath: Path, name: string, parts: seq<string>)
    requires parts != [] && Plain(parts) && Plain([name])
    ensures Join(BasePath(downloadPath, MultiFile(name, [])), Slashed(parts)) == downloadPath + [name] + parts
    ensures Join(BasePath(downloadPath, SingleFile(name, 0)), name) == downloadPath + [name]
  {
    assert [name][0] == name && Slashed([name]) == name;
    SplitFirst(name, "");
    WalkDown(downloadPath, [name]);
    JoinDown(downloadPath + [name], parts);
    JoinDown(downloadPath, [name]);
  }
}
