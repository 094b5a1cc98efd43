/**
 * The string operations the file reader relies on, written out with the
 * semantics of their JavaScript counterparts: `split`, `trim`,
 * `replace` with a one-character pattern, and `includes`.
 */
module Texto {

  /** Whitespace and line terminators removed by `String.prototype.trim`. */
  predicate EsEspacio(c: char)
  {
    c == ' ' || c == '\t' || c == '\n' || c == '\r' || c == '\U{B}' || c == '\U{C}'
    || c == '\U{A0}' || c == '\U{1680}' || ('\U{2000}' <= c <= '\U{200A}')
    || c == '\U{2028}' || c == '\U{2029}' || c == '\U{202F}' || c == '\U{205F}'
    || c == '\U{3000}' || c == '\U{FEFF}'
  }

  // ---------------------------------------------------------------------
  // split

  /** `s.split(sep)`: the pieces between separators; never empty. */
  function Split(s: string, sep: char): (partes: seq<string>)
    ensures |partes| >= 1
    ensures forall p :: p in partes ==> sep !in p
    decreases |s|
  {
    if s == [] then [[]]
    else
      var resto := Split(s[1..], sep);
      if s[0] == sep then [[]] + resto
      else [[s[0]] + resto[0]] + resto[1..]
  }

  /** `partes.join(sep)`, the inverse of `Split`. */
  function Join(partes: seq<string>, sep: char): string
    requires |partes| >= 1
  {
    if |partes| == 1 then partes[0] else partes[0] + [sep] + Join(partes[1..], sep)
  }

  /** Joining the pieces of a split gives back the original string. */
  lemma {:induction false} JoinSplit(s: string, sep: char)
    ensures Join(Split(s, sep), sep) == s
    decreases |s|
  {
    if s != [] {
      var resto := Split(s[1..], sep);
      JoinSplit(s[1..], sep);
      if s[0] == sep {
        assert Split(s, sep) == [[]] + resto;
        assert ([[]] + resto)[1..] == resto;
      } else {
        var partes := [[s[0]] + resto[0]] + resto[1..];
        assert Split(s, sep) == partes;
        if |resto| == 1 {
          assert Join(resto, sep) == resto[0];
        } else {
          assert Join(resto, sep) == resto[0] + [sep] + Join(resto[1..], sep);
          assert partes[1..] == resto[1..];
        }
      }
    }
  }

  /** Splitting a join of separator-free pieces gives back the pieces. */
  lemma {:induction false} SplitJoin(partes: seq<string>, sep: char)
    requires |partes| >= 1
    requires forall p :: p in partes ==> sep !in p
    ensures Split(Join(partes, sep), sep) == partes
    decreases |partes|, |partes[0]|
  {
    var p0 := partes[0];
    if |partes| == 1 {
      SplitSinSeparador(p0, sep);
    } else if p0 == [] {
      var s := Join(partes, sep);
      assert s == [sep] + Join(partes[1..], sep);
      assert s[1..] == Join(partes[1..], sep);
      SplitJoin(partes[1..], sep);
      assert partes == [[]] + partes[1..];
    } else {
      var menos := [p0[1..]] + partes[1..];
      assert menos[1..] == partes[1..];
      forall p | p in menos ensures sep !in p {
        if p == p0[1..] {
          assert p0 in partes && sep !in p0;
          forall k | 0 <= k < |p| ensures p[k] != sep {
            assert p[k] == p0[k + 1] && p0[k + 1] in p0;
          }
        } else {
          var t :| 0 <= t < |partes[1..]| && partes[1..][t] == p;
          assert p == partes[t + 1] && partes[t + 1] in partes;
        }
      }
      SplitJoin(menos, sep);
      var s := Join(partes, sep);
      if |partes| == 1 {
      } else {
        assert s == p0 + [sep] + Join(partes[1..], sep);
        assert Join(menos, sep) == p0[1..] + [sep] + Join(partes[1..], sep);
      }
      assert s[1..] == Join(menos, sep);
      assert p0[0] in p0;
      assert s[0] == p0[0] && p0[0] != sep;
      assert [p0[0]] + p0[1..] == p0;
    }
  }

  /** A string with no separator splits into itself alone. */
  lemma {:induction false} SplitSinSeparador(s: string, sep: char)
    requires sep !in s
    ensures Split(s, sep) == [s]
    decreases |s|
  {
    if s != [] {
      SplitSinSeparador(s[1..], sep);
      assert [s[0]] + s[1..] == s;
    }
  }

  // ---------------------------------------------------------------------
  // trim

  /** Drops leading whitespace. */
  function TrimStart(s: string): string
  {
    if s != [] && EsEspacio(s[0]) then TrimStart(s[1..]) else s
  }

  /** Drops trailing whitespace. */
  function TrimEnd(s: string): string
  {
    if s != [] && EsEspacio(s[|s| - 1]) then TrimEnd(s[..|s| - 1]) else s
  }

  /** `TrimStart` leaves the suffix that starts at the first non-space. */
  lemma {:induction false} TrimStartSufijo(s: string)
    ensures var r := TrimStart(s);
      |r| <= |s| && r == s[|s| - |r|..]
      && (r != [] ==> !EsEspacio(r[0]))
      && forall i :: 0 <= i < |s| - |r| ==> EsEspacio(s[i])
    decreases |s|
  {
    if s != [] && EsEspacio(s[0]) {
      TrimStartSufijo(s[1..]);
    }
  }

  /** `TrimEnd` leaves the prefix that ends at the last non-space. */
  lemma {:induction false} TrimEndPrefijo(s: string)
    ensures var r := TrimEnd(s);
      |r| <= |s| && r == s[..|r|]
      && (r != [] ==> !EsEspacio(r[|r| - 1]))
      && forall i :: |r| <= i < |s| ==> EsEspacio(s[i])
    decreases |s|
  {
    if s != [] && EsEspacio(s[|s| - 1]) {
      TrimEndPrefijo(s[..|s| - 1]);
    }
  }

  /** `s.trim()`. */
  function Trim(s: string): string
  {
    TrimEnd(TrimStart(s))
  }

  /** A line trims to the empty string exactly when every character is whitespace. */
  lemma TrimVacio(s: string)
    ensures Trim(s) == [] <==> forall i :: 0 <= i < |s| ==> EsEspacio(s[i])
  {
    var a := TrimStart(s);
    TrimStartSufijo(s);
    TrimEndPrefijo(a);
    if Trim(s) == [] {
      assert a == [];
    } else {
      var r := Trim(s);
      assert r[0] == a[0] == s[|s| - |a|];
    }
  }

  // ---------------------------------------------------------------------
  // replace

  /** `s.replace(c, d)` with a one-character pattern: only the first occurrence changes. */
  function ReemplazarPrimero(s: string, c: char, d: char): (r: string)
    ensures |r| == |s|
    ensures forall i :: 0 <= i < |s| ==>
      r[i] == if s[i] == c && forall j :: 0 <= j < i ==> s[j] != c then d else s[i]
  {
    if s == [] then []
    else if s[0] == c then [d] + s[1..]
    else [s[0]] + ReemplazarPrimero(s[1..], c, d)
  }

  /** Converts a decimal comma to a decimal point, as `field.replace(',', '.')` does. */
  function Decimal(s: string): (r: string)
    ensures ',' !in s ==> r == s
  {
    ReemplazarPrimero(s, ',', '.')
  }

  // ---------------------------------------------------------------------
  // includes

  /** `s.includes(p)`: `p` occurs as a contiguous piece of `s`. */
  function Contiene(s: string, p: string): (r: bool)
    ensures r <==> exists k :: 0 <= k <= |s| - |p| && OcurreEn(s, p, k)
    decreases |s|
  {
    if |s| < |p| then false
    else if s[..|p|] == p then (assert OcurreEn(s, p, 0); true)
    else
      var r := Contiene(s[1..], p);
      assert r ==> exists k :: 0 <= k <= |s| - |p| && OcurreEn(s, p, k) by {
        if r {
          var k :| 0 <= k <= |s[1..]| - |p| && OcurreEn(s[1..], p, k);
          assert s[k + 1..k + 1 + |p|] == s[1..][k..k + |p|];
          assert OcurreEn(s, p, k + 1);
        }
      }
      assert (exists k :: 0 <= k <= |s| - |p| && OcurreEn(s, p, k)) ==> r by {
        if exists k :: 0 <= k <= |s| - |p| && OcurreEn(s, p, k) {
          var k :| 0 <= k <= |s| - |p| && OcurreEn(s, p, k);
          assert s[0..|p|] == s[..|p|];
          assert k != 0;
          assert s[k..k + |p|] == s[1..][k - 1..k - 1 + |p|];
          assert OcurreEn(s[1..], p, k - 1);
        }
      }
      r
  }

  /** `p` occurs in `s` starting at index `k`. */
  predicate OcurreEn(s: string, p: string, k: int)
  {
    0 <= k <= |s| - |p| && s[k..k + |p|] == p
  }
}
