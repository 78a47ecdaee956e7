/**
 * The release script that bumps the patch number of the version recorded
 * in `manifest.json` and `package.json` (increment-patch-version.js).
 *
 * The version is split on dots, the third piece is read with
 * `parseInt(piece, 10)` and replaced by that number plus one, and the
 * pieces are joined back with dots.
 */
module PatchVersion {
  import opened Wrappers
  import opened JsValues
  import opened JsStrings

  /** `String(parseInt(parts[2], 10) + 1)`: the new third piece; a missing
      piece is `undefined`, which reads as `NaN`, and so does any piece
      that does not start with a number. */
  function NextPatch(parts: seq<string>): (patch: string)
    ensures '.' !in patch
  {
    if |parts| < 3 then "NaN" else PatchAfter(ParseInt10(parts[2]))
  }

  /** The new third piece for what `parseInt` made of the old one. */
  function PatchAfter(parsed: Option<int>): (patch: string)
    ensures '.' !in patch
  {
    match parsed
    case None => "NaN"
    case Some(n) =>
      var r := IntToString(n + 1);
      NoDotInInt(n + 1);
      r
  }

  /** The pieces after `versionParts[2] = ...`: the third piece is
      replaced, or, on a shorter array, set past the end, which leaves an
      empty hole at index 1 when there was a single piece. */
  function BumpedParts(parts: seq<string>): (r: seq<string>)
  {
    var patch := NextPatch(parts);
    if |parts| >= 3 then parts[2 := patch]
    else if |parts| == 2 then parts + [patch]
    else parts + ["", patch]
  }

  /** The new `data.version` for the old one. */
  function BumpVersion(version: string): string {
    Join(BumpedParts(Split(version, '.')), '.')
  }

  /** The decimal rendering of an integer holds no dot. */
  lemma NoDotInInt(n: int)
    ensures '.' !in IntToString(n)
  {
    var d := NatToDecimal(if n < 0 then -n else n);
    assert forall k :: 0 <= k < |d| ==> d[k] != '.';
    if n < 0 {
      assert IntToString(n) == "-" + d;
      assert forall k :: 0 <= k < |"-" + d| ==> ("-" + d)[k] != '.';
    }
  }

  /**
   * The shape of the new version: it has `max(n, 3)` dot-separated pieces
   * for an old version of `n` pieces; every old piece but the third is
   * kept in place, the third is the bumped number, and a version without
   * a dot gains an empty second piece.
   */
  lemma BumpShape(version: string)
    ensures var p := Split(version, '.');
            var q := Split(BumpVersion(version), '.');
            && |q| == (if |p| >= 3 then |p| else 3)
            && (forall i :: 0 <= i < |p| && i != 2 ==> q[i] == p[i])
            && q[2] == NextPatch(p)
            && (|p| == 1 ==> q[1] == "")
  {
    var p := Split(version, '.');
    var b := BumpedParts(p);
    assert forall i :: 0 <= i < |b| ==> '.' !in b[i];
    SplitJoin(b, '.');
  }

  /** The three pieces joined by dots. */
  lemma JoinThree(a: string, b: string, c: string)
    ensures Join([a, b, c], '.') == a + "." + b + "." + c
  {
    assert [a, b, c][1..] == [b, c];
    assert [b, c][1..] == [c];
    assert Join([b, c], '.') == b + "." + c;
    assert a + "." + (b + "." + c) == a + "." + b + "." + c;
  }

  /**
   * The usual case: when the third piece starts with a run of decimal
   * digits, it becomes that number plus one, written without leading
   * zeros, and whatever followed the digits in that piece (a pre-release
   * tag, say) is dropped; all other pieces are kept.
   */
  lemma {:induction false} BumpReadsDigits(parts: seq<string>, digits: string, tail: string)
    requires |parts| >= 3 && forall i :: 0 <= i < |parts| ==> '.' !in parts[i]
    requires parts[2] == digits + tail
    requires digits != [] && AllDigits(digits)
    requires tail == [] || !IsDigit(tail[0])
    ensures BumpVersion(Join(parts, '.')) == Join(parts[2 := NatToDecimal(DecimalValue(digits) + 1)], '.')
  {
    var next := NatToDecimal(DecimalValue(digits) + 1);
    assert NextPatch(parts) == next by {
      ParseIntReadsDigits(digits, tail, true);
      NextPatchOf(parts, DecimalValue(digits));
      assert IntToString(DecimalValue(digits) + 1) == next;
    }
    assert Split(Join(parts, '.'), '.') == parts by {
      SplitJoin(parts, '.');
    }
    assert BumpedParts(parts) == parts[2 := next];
  }

  /** The new third piece when the old one reads as `n`. */
  lemma NextPatchOf(parts: seq<string>, n: int)
    requires |parts| >= 3 && ParseInt10(parts[2]) == Some(n)
    ensures NextPatch(parts) == IntToString(n + 1)
  {
    assert NextPatch(parts) == PatchAfter(Some(n));
  }

  /** A release version `a.b.c` becomes `a.b.(c+1)`. */
  lemma BumpRelease(major: nat, minor: nat, patch: nat)
    ensures BumpVersion(NatToDecimal(major) + "." + NatToDecimal(minor) + "." + NatToDecimal(patch))
            == NatToDecimal(major) + "." + NatToDecimal(minor) + "." + NatToDecimal(patch + 1)
  {
    var a, b, c := NatToDecimal(major), NatToDecimal(minor), NatToDecimal(patch);
    var parts := [a, b, c];
    assert forall k :: 0 <= k < |a| ==> a[k] != '.';
    assert forall k :: 0 <= k < |b| ==> b[k] != '.';
    assert forall k :: 0 <= k < |c| ==> c[k] != '.';
    assert c + "" == c;
    JoinThree(a, b, c);
    BumpReadsDigits(parts, c, "");
    assert parts[2 := NatToDecimal(patch + 1)] == [a, b, NatToDecimal(patch + 1)];
    JoinThree(a, b, NatToDecimal(patch + 1));
  }

  /** Running the script twice adds two to the patch number. */
  lemma BumpTwice(major: nat, minor: nat, patch: nat)
    ensures BumpVersion(BumpVersion(NatToDecimal(major) + "." + NatToDecimal(minor) + "." + NatToDecimal(patch)))
            == NatToDecimal(major) + "." + NatToDecimal(minor) + "." + NatToDecimal(patch + 2)
  {
    BumpRelease(major, minor, patch);
    BumpRelease(major, minor, patch + 1);
  }

  /** A negative third piece is read with its sign: `-5` becomes `-4`. */
  lemma BumpNegativePatch(a: string, b: string, digits: string)
    requires '.' !in a && '.' !in b
    requires digits != [] && AllDigits(digits)
    ensures BumpVersion(a + "." + b + ".-" + digits) == a + "." + b + "." + IntToString(1 - DecimalValue(digits))
  {
    var c := "-" + digits;
    assert forall k :: 0 <= k < |digits| ==> digits[k] != '.';
    assert forall k :: 0 <= k < |c| ==> c[k] != '.';
    assert a + "." + b + ".-" + digits == a + "." + b + "." + c;
    NegativePatch(a, b, digits);
    BumpThree(a, b, c);
  }

  /** `parseInt("-d", 10) + 1` is `1 - d`. */
  lemma NegativePatch(a: string, b: string, digits: string)
    requires digits != [] && AllDigits(digits)
    ensures NextPatch([a, b, "-" + digits]) == IntToString(1 - DecimalValue(digits))
  {
    assert digits + "" == digits;
    ParseIntReadsNegative(digits, "", true);
    NextPatchOf([a, b, "-" + digits], -(DecimalValue(digits) as int));
  }

  /** A three-piece version keeps its first two pieces and gets the
      bumped third. */
  lemma BumpThree(a: string, b: string, c: string)
    requires '.' !in a && '.' !in b && '.' !in c
    ensures BumpVersion(a + "." + b + "." + c) == a + "." + b + "." + NextPatch([a, b, c])
  {
    JoinThree(a, b, c);
    SplitJoin([a, b, c], '.');
    assert BumpedParts([a, b, c]) == [a, b, NextPatch([a, b, c])];
    JoinThree(a, b, NextPatch([a, b, c]));
  }

  /** A third piece that is not a number turns into `NaN`. */
  lemma BumpNonNumericPatch(a: string, b: string, c: string)
    requires '.' !in a && '.' !in b && '.' !in c
    requires c != [] && !IsWhiteSpace(c[0]) && !IsDigit(c[0]) && c[0] != '-' && c[0] != '+'
    ensures BumpVersion(a + "." + b + "." + c) == a + "." + b + ".NaN"
  {
    ParseIntRejectsNonDigit(c, true);
    BumpThree(a, b, c);
  }

  /** A version of two pieces gains a third, `NaN`. */
  lemma BumpTwoPieces(a: string, b: string)
    requires '.' !in a && '.' !in b
    ensures BumpVersion(a + "." + b) == a + "." + b + ".NaN"
  {
    assert Join([a, b], '.') == a + "." + b by {
      assert [a, b][1..] == [b];
    }
    SplitJoin([a, b], '.');
    assert [a, b] + ["NaN"] == [a, b, "NaN"];
    JoinThree(a, b, "NaN");
  }

  /** A version without a dot gains an empty piece and `NaN`. */
  lemma BumpOnePiece(a: string)
    requires '.' !in a
    ensures BumpVersion(a) == a + "..NaN"
  {
    assert Join([a], '.') == a;
    SplitJoin([a], '.');
    assert [a] + ["", "NaN"] == [a, "", "NaN"];
    JoinThree(a, "", "NaN");
  }

  // ---------------------------------------------------------------------
  // The script

  /** The parsed contents of a file: text that is not JSON, JSON that is
      not an object (`null`, a number, an array, ...), or an object. */
  datatype Document = Unparsable | NotAnObject | Object(fields: map<string, JsValue>)

  /** The files the script bumps, in order. */
  const VersionFiles := ["manifest.json", "package.json"]

  /** The version string of `file`, when the script can bump it: the file
      exists, parses to an object, and its `version` is a string (anything
      else makes `data.version.split` throw). */
  function VersionOf(docs: map<string, Document>, file: string): Option<string> {
    if file in docs && docs[file].Object? && "version" in docs[file].fields && docs[file].fields["version"].Str?
    then Some(docs[file].fields["version"].s)
    else None
  }

  /** The console line for a bumped file. */
  function UpdatedLine(file: string, version: string): string {
    "Updated " + file + " to version " + version
  }

  /** The files, the console output, and the file the script threw on. */
  datatype Run = Run(docs: map<string, Document>, log: seq<string>, failed: Option<string>)

  /** The `forEach` over `files` from the given state: each file gets its
      version bumped and a console line; the first file that cannot be
      bumped ends the script with an exception. */
  function BumpFrom(files: seq<string>, docs: map<string, Document>, log: seq<string>): (r: Run)
    ensures r.docs.Keys == docs.Keys
    ensures |log| <= |r.log| && r.log[..|log|] == log
    decreases |files|
  {
    if files == [] then Run(docs, log, None)
    else
      var file := files[0];
      match VersionOf(docs, file)
      case None => Run(docs, log, Some(file))
      case Some(v) =>
        var next := BumpVersion(v);
        var r := BumpFrom(files[1..], docs[file := Object(docs[file].fields["version" := Str(next)])],
                          log + [UpdatedLine(file, next)]);
        assert r.log[..|log| + 1][..|log|] == r.log[..|log|];
        r
  }

  /** `doc` with its version bumped, when it has a string version. */
  function Bumped(doc: Document): Document {
    if doc.Object? && "version" in doc.fields && doc.fields["version"].Str?
    then Object(doc.fields["version" := Str(BumpVersion(doc.fields["version"].s))])
    else doc
  }

  /**
   * Whatever the files hold, the script changes nothing but the `version`
   * field of some documents: every document keeps its kind, its set of
   * fields and the value of every other field.
   */
  lemma {:induction false} BumpFromOnlyVersions(files: seq<string>, docs: map<string, Document>,
                                                log: seq<string>, f: string)
    requires f in docs
    ensures var d := BumpFrom(files, docs, log).docs[f];
            && (d.Object? <==> docs[f].Object?)
            && (d.Object? ==> d.fields.Keys == docs[f].fields.Keys)
            && (d.Object? ==> forall key :: key in d.fields && key != "version" ==> d.fields[key] == docs[f].fields[key])
            && (d != docs[f] ==> d.Object? && VersionOf(docs, f).Some? && d.fields["version"].Str?)
    decreases |files|
  {
    if files != [] {
      var file := files[0];
      match VersionOf(docs, file)
      case None =>
      case Some(v) =>
        var docs1 := docs[file := Object(docs[file].fields["version" := Str(BumpVersion(v))])];
        BumpFromOnlyVersions(files[1..], docs1, log + [UpdatedLine(file, BumpVersion(v))], f);
    }
  }

  /**
   * The whole script: `manifest.json` is bumped first and `package.json`
   * second, each with its console line; the first one that cannot be
   * bumped stops the script there, leaving it and the later one as they
   * were.
   */
  lemma IncrementOutcome(docs: map<string, Document>, log: seq<string>)
    ensures var r := BumpFrom(VersionFiles, docs, log);
            var m, p := "manifest.json", "package.json";
            && (VersionOf(docs, m).None? ==> r == Run(docs, log, Some(m)))
            && (VersionOf(docs, m).Some? && VersionOf(docs, p).None? ==>
                  r == Run(docs[m := Bumped(docs[m])], log + [UpdatedLine(m, BumpVersion(VersionOf(docs, m).value))],
                           Some(p)))
            && (VersionOf(docs, m).Some? && VersionOf(docs, p).Some? ==>
                  r == Run(docs[m := Bumped(docs[m])][p := Bumped(docs[p])],
                           log + [UpdatedLine(m, BumpVersion(VersionOf(docs, m).value)),
                                  UpdatedLine(p, BumpVersion(VersionOf(docs, p).value))],
                           None))
  {
    var m, p := "manifest.json", "package.json";
    assert VersionFiles[1..] == [p] && [p][1..] == [];
    if VersionOf(docs, m).Some? {
      var docs1 := docs[m := Bumped(docs[m])];
      assert VersionOf(docs1, p) == VersionOf(docs, p);
      assert p in docs ==> docs1[p] == docs[p];
    }
  }

  /** The two files as the script sees them, and its console output. */
  class PackageFiles {
    var docs: map<string, Document>
    var log: seq<string>

    constructor (docs: map<string, Document>)
      ensures this.docs == docs && log == []
    {
      this.docs := docs;
      log := [];
    }

    /** Runs the script; `failed` names the file it threw on, if any. */
    method IncrementPatchVersion() returns (failed: Option<string>)
      modifies this
      ensures Run(docs, log, failed) == BumpFrom(VersionFiles, old(docs), old(log))
    {
      var i := 0;
      while i < |VersionFiles|
        invariant 0 <= i <= |VersionFiles|
        invariant BumpFrom(VersionFiles[i..], docs, log) == BumpFrom(VersionFiles, old(docs), old(log))
      {
        assert VersionFiles[i..][0] == VersionFiles[i] && VersionFiles[i..][1..] == VersionFiles[i + 1..];
        var file := VersionFiles[i];
        if file !in docs || !docs[file].Object? {
          return Some(file);
        }
        var data := docs[file].fields;
        if "version" !in data || !data["version"].Str? {
          return Some(file);
        }
        var versionParts := Split(data["version"].s, '.');
        var version := Join(BumpedParts(versionParts), '.');
        docs := docs[file := Object(data["version" := Str(version)])];
        log := log + [UpdatedLine(file, version)];
        i := i + 1;
      }
      return None;
    }
  }
}
