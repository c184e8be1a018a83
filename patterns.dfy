/**
 * The two regular expressions of the processor, stated over strings:
 * `IMAGE_REGEX = /\.(jpg|jpeg|png|gif)/i`, which classifies attribute values
 * as media references, and `/\.(zip|blm)/i`, which picks the directory
 * entries to work on. Both are unanchored and case-insensitive, so each is a
 * case-insensitive substring test.
 */
module Patterns {
  import opened Base

  /** ASCII case folding, as the `/i` flag applies it to these patterns. */
  function LowerChar(c: char): char
  {
    if 'A' <= c <= 'Z' then (c as int + 32) as char else c
  }

  function Lower(s: string): (r: string)
    ensures |r| == |s|
  {
    seq(|s|, i requires 0 <= i < |s| => LowerChar(s[i]))
  }

  /** `p` occurs in `s` starting at index `j`. */
  predicate OccursAt(s: string, p: string, j: nat)
  {
    j + |p| <= |s| && s[j..j + |p|] == p
  }

  /** `p` occurs somewhere in `s` (an unanchored match of a literal pattern). */
  predicate Contains(s: string, p: string)
  {
    exists j :: 0 <= j <= |s| - |p| && OccursAt(s, p, j)
  }

  /** `s` matches the lower-case literal `p` under the `/i` flag. */
  predicate ContainsIgnoringCase(s: string, p: string)
  {
    Contains(Lower(s), p)
  }

  /** `value =~ IMAGE_REGEX` succeeds. */
  predicate IsImageValue(value: string)
  {
    || ContainsIgnoringCase(value, ".jpg")
    || ContainsIgnoringCase(value, ".jpeg")
    || ContainsIgnoringCase(value, ".png")
    || ContainsIgnoringCase(value, ".gif")
  }

  /** The spellings of the four image extensions in any letter case. */
  predicate IsImageExtension(ext: string)
  {
    Lower(ext) in {".jpg", ".jpeg", ".png", ".gif"}
  }

  /** `/\.(zip|blm)/i` can match `name` at index `j`. */
  predicate ArchiveExtensionAt(name: string, j: nat)
  {
    OccursAt(Lower(name), ".zip", j) || OccursAt(Lower(name), ".blm", j)
  }

  /** `/\.(zip|blm)/i.match(name)` succeeds. */
  predicate IsArchiveName(name: string)
  {
    ContainsIgnoringCase(name, ".zip") || ContainsIgnoringCase(name, ".blm")
  }

  /**
   * The leftmost index at or after `from` where `/\.(zip|blm)/i` matches:
   * the position of the `MatchData` a Ruby regex search returns.
   */
  function ArchiveMatchFrom(name: string, from: nat): (r: Option<nat>)
    decreases |name| - from
    ensures r.Some? ==> from <= r.value && ArchiveExtensionAt(name, r.value)
    ensures r.Some? ==> forall j: nat :: from <= j < r.value ==> !ArchiveExtensionAt(name, j)
    ensures r.None? ==> forall j: nat :: from <= j ==> !ArchiveExtensionAt(name, j)
  {
    if from + 4 > |name| then None
    else if ArchiveExtensionAt(name, from) then Some(from)
    else ArchiveMatchFrom(name, from + 1)
  }

  function ArchiveMatch(name: string): Option<nat>
  {
    ArchiveMatchFrom(name, 0)
  }

  /** The search finds a match exactly when the entry name is an archive name. */
  lemma ArchiveMatchIffArchiveName(name: string)
    ensures ArchiveMatch(name).Some? <==> IsArchiveName(name)
  {
    var lower := Lower(name);
    if ArchiveMatch(name).Some? {
      var j := ArchiveMatch(name).value;
      if OccursAt(lower, ".zip", j) {
        assert Contains(lower, ".zip");
      } else {
        assert Contains(lower, ".blm");
      }
    }
    if IsArchiveName(name) {
      var j :| 0 <= j <= |lower| - 4 && (OccursAt(lower, ".zip", j) || OccursAt(lower, ".blm", j));
      assert ArchiveExtensionAt(name, j);
    }
  }

  /** Folding the case of one character never produces or removes a dot. */
  lemma LowerCharDot(c: char)
    ensures LowerChar(c) == '.' <==> c == '.'
  {
  }

  /** A string without upper-case letters is its own folding. */
  lemma LowerOfLowerCase(s: string)
    requires forall i :: 0 <= i < |s| ==> !('A' <= s[i] <= 'Z')
    ensures Lower(s) == s
  {
  }

  lemma LowerConcat(a: string, b: string)
    ensures Lower(a + b) == Lower(a) + Lower(b)
  {
  }

  /** A literal occurs in any string that has it in the middle. */
  lemma ContainsMiddle(a: string, p: string, b: string)
    ensures Contains(a + p + b, p)
  {
    var s := a + p + b;
    assert s[|a|..|a| + |p|] == p;
    assert OccursAt(s, p, |a|);
  }

  /**
   * IMAGE_REGEX is unanchored and case-insensitive: an image extension in any
   * letter case, anywhere in a value, makes the value a media reference.
   */
  lemma {:induction false} ImageExtensionAnywhere(a: string, ext: string, b: string)
    requires IsImageExtension(ext)
    ensures IsImageValue(a + ext + b)
  {
    LowerConcat(a + ext, b);
    LowerConcat(a, ext);
    assert Lower(a + ext + b) == Lower(a) + Lower(ext) + Lower(b);
    ContainsMiddle(Lower(a), Lower(ext), Lower(b));
  }

  /** Likewise an archive extension anywhere in an entry name selects it. */
  lemma {:induction false} ArchiveExtensionAnywhere(a: string, ext: string, b: string)
    requires Lower(ext) == ".zip" || Lower(ext) == ".blm"
    ensures IsArchiveName(a + ext + b)
  {
    LowerConcat(a + ext, b);
    LowerConcat(a, ext);
    assert Lower(a + ext + b) == Lower(a) + Lower(ext) + Lower(b);
    ContainsMiddle(Lower(a), Lower(ext), Lower(b));
  }
}
