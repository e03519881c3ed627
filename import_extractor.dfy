/** `getLibNamesFromCode` (src/background/services/typescript.ts): the heuristic that
    extracts third-party package names from raw source text. The two regular-expression
    scans are an input; what is modelled and proved is everything done with their matches. */
module ImportExtractor {
  import opened Sequences

  /** The two scans, in the order the source runs them: the one meant for
      `import … from '…'` / `export … from '…'` (written with a character class,
      so any one of the letters i, m, p, o, r, t, e, x or `|` can start a match)
      and the one for `require('…')`. */
  datatype Pattern = ImportOrExportFrom | RequireCall

  const Patterns: seq<Pattern> := [ImportOrExportFrom, RequireCall]

  /** The regex engine: for a pattern and the source text, the captured specifier
      (`$1`) of every match, in text order. */
  type Scanner = (Pattern, string) -> seq<string>

  /** `spec.split('/')[0]`: the part of a specifier before its first `/`. */
  function FirstSegment(spec: string): (r: string)
    ensures r <= spec
    ensures '/' !in r
    ensures |r| < |spec| ==> spec[|r|] == '/'
  {
    if spec == [] || spec[0] == '/' then [] else [spec[0]] + FirstSegment(spec[1..])
  }

  /** `item[0] === '.'`: a relative path such as `./util`. The empty name has no
      first character and is not relative. */
  predicate IsRelative(name: string) {
    |name| > 0 && name[0] == '.'
  }

  /** What one scan contributes: first segments, without relative paths and without
      the standard-library names (lodash `without`), in match order. */
  function Candidates(specs: seq<string>, stdLibs: set<string>): (r: seq<string>)
    ensures |r| <= |specs|
    ensures forall n :: n in r <==> Admitted(specs, stdLibs, n)
  {
    var segments := seq(|specs|, i requires 0 <= i < |specs| => FirstSegment(specs[i]));
    assert forall n :: n in segments <==> exists sp :: sp in specs && n == FirstSegment(sp) by {
      forall n ensures n in segments <==> exists sp :: sp in specs && n == FirstSegment(sp) {
        if n in segments {
          var i :| 0 <= i < |segments| && segments[i] == n;
          assert specs[i] in specs;
        }
        if exists sp :: sp in specs && n == FirstSegment(sp) {
          var sp :| sp in specs && n == FirstSegment(sp);
          var i :| 0 <= i < |specs| && specs[i] == sp;
          assert segments[i] == n;
        }
      }
    }
    Filter(Filter(segments, n => !IsRelative(n)), n => n !in stdLibs)
  }

  /** The contributions of two runs of matches, concatenated, are the contribution of
      the matches concatenated: `Candidates` keeps match order. */
  lemma CandidatesAppend(a: seq<string>, b: seq<string>, stdLibs: set<string>)
    ensures Candidates(a + b, stdLibs) == Candidates(a, stdLibs) + Candidates(b, stdLibs)
  {
    var seg := (specs: seq<string>) => seq(|specs|, i requires 0 <= i < |specs| => FirstSegment(specs[i]));
    assert seg(a + b) == seg(a) + seg(b);
    FilterAppend(seg(a), seg(b), n => !IsRelative(n));
    FilterAppend(Filter(seg(a), n => !IsRelative(n)), Filter(seg(b), n => !IsRelative(n)), n => n !in stdLibs);
  }

  /** One match contributes its first segment, or nothing when that segment is
      relative or a standard-library name. */
  lemma CandidatesSingle(spec: string, stdLibs: set<string>)
    ensures Candidates([spec], stdLibs) ==
      var n := FirstSegment(spec);
      if !IsRelative(n) && n !in stdLibs then [n] else []
  {
    assert seq(1, i requires 0 <= i < 1 => FirstSegment([spec][i])) == [FirstSegment(spec)];
  }

  /** `n` is the first segment of some specifier in `specs`, not relative and not a
      standard-library name. */
  ghost predicate Admitted(specs: seq<string>, stdLibs: set<string>, n: string) {
    (exists sp :: sp in specs && n == FirstSegment(sp)) && !IsRelative(n) && n !in stdLibs
  }

  /** The concatenated contributions of the first `k` scans: the value of `result`
      after `k` rounds of the loop over the patterns. */
  function Gathered(code: string, scan: Scanner, stdLibs: set<string>, k: nat): seq<string>
    requires k <= |Patterns|
  {
    if k == 0 then [] else Gathered(code, scan, stdLibs, k - 1) + Candidates(scan(Patterns[k - 1], code), stdLibs)
  }

  /** The package names `getLibNamesFromCode` returns for `code`. */
  function ExtractedNames(code: string, scan: Scanner, stdLibs: set<string>): (names: seq<string>)
    ensures NoDuplicates(names)
    ensures forall n :: n in names <==>
      Admitted(scan(ImportOrExportFrom, code), stdLibs, n) || Admitted(scan(RequireCall, code), stdLibs, n)
    ensures var first := Uniq(Candidates(scan(ImportOrExportFrom, code), stdLibs));
      |first| <= |names| && names[..|first|] == first
  {
    var first := Candidates(scan(ImportOrExportFrom, code), stdLibs);
    var second := Candidates(scan(RequireCall, code), stdLibs);
    assert Gathered(code, scan, stdLibs, 1) == first by {
      assert Patterns[0] == ImportOrExportFrom;
    }
    assert Gathered(code, scan, stdLibs, 2) == first + second by {
      assert Patterns[1] == RequireCall;
    }
    UniqPrefix(first, second);
    Uniq(Gathered(code, scan, stdLibs, |Patterns|))
  }

  /** Names come out in the order of their first match, all matches of the first
      scan counting before those of the second. */
  lemma ExtractedNamesFirstSeen(code: string, scan: Scanner, stdLibs: set<string>, i: nat, j: nat)
    requires i < j < |ExtractedNames(code, scan, stdLibs)|
    ensures Gathered(code, scan, stdLibs, |Patterns|) ==
      Candidates(scan(ImportOrExportFrom, code) + scan(RequireCall, code), stdLibs)
    ensures var all := Gathered(code, scan, stdLibs, |Patterns|);
      var names := ExtractedNames(code, scan, stdLibs);
      names[i] in all && names[j] in all && FirstIndex(all, names[i]) < FirstIndex(all, names[j])
  {
    var all := Gathered(code, scan, stdLibs, |Patterns|);
    UniqFirstSeenOrder(all, i, j);
    assert all == Candidates(scan(ImportOrExportFrom, code), stdLibs) + Candidates(scan(RequireCall, code), stdLibs) by {
      assert Patterns[0] == ImportOrExportFrom && Patterns[1] == RequireCall;
      assert Gathered(code, scan, stdLibs, 1) == Candidates(scan(ImportOrExportFrom, code), stdLibs);
    }
    CandidatesAppend(scan(ImportOrExportFrom, code), scan(RequireCall, code), stdLibs);
  }

  /** The loop of `getLibNamesFromCode`: one round per pattern, appending that scan's
      candidates to `result`, then deduplicating. */
  method LibNamesFromCode(code: string, scan: Scanner, stdLibs: set<string>) returns (names: seq<string>)
    ensures names == ExtractedNames(code, scan, stdLibs)
  {
    var result: seq<string> := [];
    for k := 0 to |Patterns|
      invariant result == Gathered(code, scan, stdLibs, k)
    {
      var libs := Candidates(scan(Patterns[k], code), stdLibs);
      result := result + libs;
    }
    names := Uniq(result);
  }

  /** A deep import yields its package: `import x from "lodash/throttle"` gives `["lodash"]`. */
  lemma DeepImportExample(code: string, scan: Scanner, stdLibs: set<string>)
    requires scan(ImportOrExportFrom, code) == ["lodash/throttle"] && scan(RequireCall, code) == []
    requires "lodash" !in stdLibs
    ensures ExtractedNames(code, scan, stdLibs) == ["lodash"]
  {
    DeepImportCandidates(stdLibs);
    assert Candidates([], stdLibs) == [];
    assert Gathered(code, scan, stdLibs, 1) == ["lodash"] by {
      assert Patterns[0] == ImportOrExportFrom;
    }
    assert Gathered(code, scan, stdLibs, 2) == ["lodash"] by {
      assert Patterns[1] == RequireCall;
    }
    assert Uniq(["lodash"]) == ["lodash"] by {
      assert ["lodash"][..0] == [];
    }
  }

  /** The one scan result `"lodash/throttle"` contributes `"lodash"`. */
  lemma DeepImportCandidates(stdLibs: set<string>)
    requires "lodash" !in stdLibs
    ensures Candidates(["lodash/throttle"], stdLibs) == ["lodash"]
  {
    DeepImportSegment();
    var segments := seq(1, i requires 0 <= i < 1 => FirstSegment(["lodash/throttle"][i]));
    assert segments == ["lodash"];
    assert Filter(segments, n => !IsRelative(n)) == ["lodash"];
  }

  lemma DeepImportSegment()
    ensures FirstSegment("lodash/throttle") == "lodash"
  {
    assert "lodash/throttle"[6] == '/';
    assert "lodash/throttle"[..6] == "lodash";
    FirstSegmentIsPrefixBeforeSlash("lodash/throttle", 6);
  }

  /** The first segment is everything before the first `/`. */
  lemma {:induction false} FirstSegmentIsPrefixBeforeSlash(spec: string, k: nat)
    requires k < |spec| && spec[k] == '/' && '/' !in spec[..k]
    ensures FirstSegment(spec) == spec[..k]
  {
    if k > 0 {
      assert spec[0] == spec[..k][0];
      assert spec[1..][..k - 1] == spec[..k][1..];
      FirstSegmentIsPrefixBeforeSlash(spec[1..], k - 1);
    }
  }
}
