/** Masking of secrets in model-bound text and its lift over JSON values. A policy holds its secrets
    in the order they are looked for; one that is empty never gets into it. */
module Secrets {

  datatype Option<T> = None | Some(value: T)

  datatype Mode = Redact | Obfuscate

  datatype Policy = Policy(mode: Mode, replacement: string, secrets: seq<string>)
  {
    predicate Ready() { NoneEmpty(secrets) }

    /** What stands in the place of a secret. */
    function Cover(secret: string): string
    {
      if mode == Redact then replacement else Stars(|secret|)
    }
  }

  predicate NoneEmpty(list: seq<string>) { forall i :: 0 <= i < |list| ==> list[i] != "" }

  function Stars(n: nat): (r: string) { seq(n, i => '*') }

  predicate Occurs(s: string, text: string, at: int)
  {
    0 <= at <= |text| - |s| && text[at..at + |s|] == s
  }

  predicate Contains(text: string, s: string) { exists at | 0 <= at <= |text| :: Occurs(s, text, at) }

  /** Every occurrence replaced, scanning from the left and never inside what was replaced. */
  function Replace(text: string, s: string, cover: string): (r: string)
    requires s != ""
    ensures |cover| == |s| ==> |r| == |text|
  {
    if text == "" then ""
    else if s <= text then cover + Replace(text[|s|..], s, cover)
    else [text[0]] + Replace(text[1..], s, cover)
  }

  // ---- The loop over the secrets ----

  /** The text with the secrets of `rest` replaced one after the other. */
  function Protected(p: Policy, rest: seq<string>, text: string): (r: string)
    requires NoneEmpty(rest)
    ensures p.mode == Obfuscate ==> |r| == |text|
    decreases |rest|
  {
    if rest == [] then text
    else Protected(p, rest[1..], Replace(text, rest[0], p.Cover(rest[0])))
  }

  lemma {:induction false} AbsentIsKept(text: string, s: string, cover: string)
    requires s != "" && !Contains(text, s)
    ensures Replace(text, s, cover) == text
    decreases |text|
  {
    if text != "" {
      assert s <= text ==> Occurs(s, text, 0);
      forall at | 0 <= at <= |text| - 1
        ensures !Occurs(s, text[1..], at)
      {
        assert Occurs(s, text[1..], at) ==> Occurs(s, text, at + 1);
      }
      AbsentIsKept(text[1..], s, cover);
    }
  }

  // ---- What replacing keeps ----

  /** The parts with `x` between them. */
  function With(parts: seq<string>, x: string): string
    requires parts != []
  {
    if |parts| == 1 then parts[0] else parts[0] + (x + With(parts[1..], x))
  }

  /** The text between the occurrences of `s` that a scan from the left meets. */
  ghost predicate Between(parts: seq<string>, s: string)
  {
    parts != [] && !Contains(parts[|parts| - 1], s) &&
    forall i, at :: 0 <= i < |parts| - 1 && 0 <= at < |parts[i]| ==> !Occurs(s, parts[i] + s, at)
  }

  /** A text is its parts with the secret between them, and replacing puts the cover there and leaves the
      parts as they are. */
  lemma {:induction false} ReplaceKeepsParts(text: string, s: string, cover: string) returns (parts: seq<string>)
    requires s != ""
    ensures Between(parts, s) && With(parts, s) == text && With(parts, cover) == Replace(text, s, cover)
    decreases |text|
  {
    if text == "" {
      parts := [""];
    } else if s <= text {
      var rest := ReplaceKeepsParts(text[|s|..], s, cover);
      parts := [""] + rest;
      assert parts[1..] == rest && text == s + text[|s|..];
      forall i, at | 0 <= i < |parts| - 1 && 0 <= at < |parts[i]|
        ensures !Occurs(s, parts[i] + s, at)
      {
        assert i > 0 && parts[i] == rest[i - 1];
      }
    } else {
      var rest := ReplaceKeepsParts(text[1..], s, cover);
      parts := FrontGrows(text, s, cover, rest);
    }
  }

  /** With one secret: the replacement stands for it, or as many stars as it has characters. */
  lemma {:induction false} OneSecret(p: Policy, s: string, text: string) returns (parts: seq<string>, cover: string)
    requires s != ""
    ensures Between(parts, s) && With(parts, s) == text && Protected(p, [s], text) == With(parts, cover)
    ensures p.mode == Redact ==> cover == p.replacement
    ensures p.mode == Obfuscate ==> |cover| == |s| && forall i :: 0 <= i < |cover| ==> cover[i] == '*'
  {
    cover := p.Cover(s);
    parts := ReplaceKeepsParts(text, s, cover);
    assert [s][1..] == [];
  }

  lemma {:induction false} FrontGrows(text: string, s: string, cover: string, rest: seq<string>) returns (parts: seq<string>)
    requires s != "" && text != "" && !(s <= text)
    requires Between(rest, s) && With(rest, s) == text[1..] && With(rest, cover) == Replace(text[1..], s, cover)
    ensures Between(parts, s) && With(parts, s) == text && With(parts, cover) == Replace(text, s, cover)
  {
    parts := [[text[0]] + rest[0]] + rest[1..];
    WithFront(text[0], rest, s);
    WithFront(text[0], rest, cover);
    assert text == [text[0]] + text[1..];
    FrontBetween(text, s, rest, parts);
  }

  lemma {:induction false} WithFront(c: char, rest: seq<string>, x: string)
    requires rest != []
    ensures With([[c] + rest[0]] + rest[1..], x) == [c] + With(rest, x)
  {
    var parts := [[c] + rest[0]] + rest[1..];
    assert parts[1..] == rest[1..];
    if |rest| > 1 {
      assert [c] + rest[0] + (x + With(rest[1..], x)) == [c] + (rest[0] + (x + With(rest[1..], x)));
    }
  }

  lemma {:induction false} FrontBetween(text: string, s: string, rest: seq<string>, parts: seq<string>)
    requires s != "" && text != "" && !(s <= text) && Between(rest, s) && With(rest, s) == text[1..]
    requires parts == [[text[0]] + rest[0]] + rest[1..]
    ensures Between(parts, s)
  {
    if |rest| == 1 {
      assert parts[0] == text;
      NotInGrown(text, s);
    } else {
      assert parts[|parts| - 1] == rest[|rest| - 1];
    }
    forall i, at | 0 <= i < |parts| - 1 && 0 <= at < |parts[i]|
      ensures !Occurs(s, parts[i] + s, at)
    {
      if i == 0 {
        NotAcross(text, s, rest, at);
      } else {
        assert parts[i] == rest[i];
      }
    }
  }

  lemma {:induction false} NotInGrown(text: string, s: string)
    requires s != "" && text != "" && !(s <= text) && !Contains(text[1..], s)
    ensures !Contains(text, s)
  {
    forall at | 0 <= at <= |text|
      ensures !Occurs(s, text, at)
    {
      if at > 0 {
        assert Occurs(s, text, at) ==> Occurs(s, text[1..], at - 1);
      }
    }
  }

  lemma {:induction false} NotAcross(text: string, s: string, rest: seq<string>, at: nat)
    requires s != "" && text != "" && !(s <= text) && Between(rest, s) && |rest| > 1 && With(rest, s) == text[1..]
    requires at < 1 + |rest[0]|
    ensures !Occurs(s, [text[0]] + rest[0] + s, at)
  {
    var grown, tail := [text[0]] + rest[0] + s, rest[0] + s;
    assert grown == [text[0]] + tail;
    if at > 0 {
      assert Occurs(s, grown, at) ==> Occurs(s, tail, at - 1) by { assert grown[at..][..|s|] == tail[at - 1..][..|s|]; }
    } else {
      assert text[1..] == rest[0] + (s + With(rest[1..], s));
      assert grown == text[..|grown|];
    }
  }

  method ProtectText(p: Policy, text: string) returns (r: string)
    requires p.Ready()
    ensures r == Protected(p, p.secrets, text)
  {
    r := text;
    for i := 0 to |p.secrets|
      invariant Protected(p, p.secrets[i..], r) == Protected(p, p.secrets, text)
    {
      var secret := p.secrets[i];
      if Contains(r, secret) {
        r := Replace(r, secret, p.Cover(secret));
      } else {
        AbsentIsKept(r, secret, p.Cover(secret));
      }
      assert p.secrets[i..][1..] == p.secrets[i + 1..];
    }
    assert p.secrets[|p.secrets|..] == [];
  }

  // ---- Covers that share no character with a secret ----

  predicate Foreign(cover: string, s: string) { cover != "" && forall i :: 0 <= i < |cover| ==> cover[i] !in s }

  /** What the result begins with and shares no character with the cover, the text began with. */
  lemma {:induction false} PrefixKept(text: string, s: string, cover: string, w: string)
    requires s != "" && Foreign(cover, w) && w <= Replace(text, s, cover)
    ensures w <= text
    decreases |text|
  {
    if text != "" && w != "" {
      assert w[0] in w && w[0] == Replace(text, s, cover)[0];
      if s <= text {
        assert false;
      } else {
        var rest := Replace(text[1..], s, cover);
        assert Replace(text, s, cover)[1..] == rest;
        assert w[1..] <= rest;
        PrefixKept(text[1..], s, cover, w[1..]);
      }
    }
  }

  /** Replacing `s` brings in no occurrence of `w` and leaves none of `s`, if the cover is foreign. */
  lemma {:induction false} NothingNew(text: string, s: string, cover: string, w: string, at: int)
    requires s != "" && w != "" && Foreign(cover, w) && Occurs(w, Replace(text, s, cover), at)
    ensures Contains(text, w) && w != s
    decreases |text|
  {
    if s <= text {
      OutsideCover(cover, Replace(text[|s|..], s, cover), w, at);
      NothingNew(text[|s|..], s, cover, w, at - |cover|);
      Shifted(text, w, |s|);
    } else if at == 0 {
      PrefixKept(text, s, cover, w);
      assert Occurs(w, text, 0);
    } else {
      Dropped([text[0]], Replace(text[1..], s, cover), w, at);
      NothingNew(text[1..], s, cover, w, at - 1);
      Shifted(text, w, 1);
    }
  }

  lemma {:induction false} Dropped(head: string, rest: string, w: string, at: int)
    requires w != "" && Occurs(w, head + rest, at) && |head| <= at
    ensures Occurs(w, rest, at - |head|)
  {
    assert (head + rest)[at..at + |w|] == rest[at - |head|..at - |head| + |w|];
  }

  lemma {:induction false} OutsideCover(cover: string, rest: string, w: string, at: int)
    requires w != "" && Foreign(cover, w) && Occurs(w, cover + rest, at)
    ensures |cover| <= at && Occurs(w, rest, at - |cover|)
  {
    assert w[0] in w && w[0] == (cover + rest)[at..at + |w|][0] == (cover + rest)[at];
    Dropped(cover, rest, w, at);
  }

  lemma {:induction false} Shifted(text: string, w: string, from: nat)
    requires from <= |text| && Contains(text[from..], w)
    ensures Contains(text, w)
  {
    var at :| 0 <= at <= |text[from..]| && Occurs(w, text[from..], at);
    assert text[from..][at..at + |w|] == text[from + at..from + at + |w|];
    assert Occurs(w, text, from + at);
  }

  /** No cover shares a character with any secret. */
  predicate CoversForeign(p: Policy)
  {
    forall i, j :: 0 <= i < |p.secrets| && 0 <= j < |p.secrets| ==> Foreign(p.Cover(p.secrets[i]), p.secrets[j])
  }

  lemma {:induction false} AbsentStaysAbsent(p: Policy, rest: seq<string>, text: string, w: string)
    requires p.Ready() && CoversForeign(p) && w in p.secrets
    requires |rest| <= |p.secrets| && rest == p.secrets[|p.secrets| - |rest|..]
    requires !Contains(text, w) || w in rest
    ensures !Contains(Protected(p, rest, text), w)
    decreases |rest|
  {
    if rest != [] {
      var next := Replace(text, rest[0], p.Cover(rest[0]));
      if w == rest[0] || !Contains(text, w) {
        forall at | 0 <= at <= |next|
          ensures !Occurs(w, next, at)
        {
          if Occurs(w, next, at) { NothingNew(text, rest[0], p.Cover(rest[0]), w, at); }
        }
      }
      AbsentStaysAbsent(p, rest[1..], next, w);
    }
  }

  lemma {:induction false} AbsentAllKept(p: Policy, rest: seq<string>, text: string)
    requires forall i :: 0 <= i < |rest| ==> rest[i] != "" && !Contains(text, rest[i])
    ensures Protected(p, rest, text) == text
    decreases |rest|
  {
    if rest != [] {
      AbsentIsKept(text, rest[0], p.Cover(rest[0]));
      AbsentAllKept(p, rest[1..], text);
    }
  }

  /** No secret of the policy occurs in the text. */
  ghost predicate Free(p: Policy, text: string)
  {
    forall i :: 0 <= i < |p.secrets| ==> !Contains(text, p.secrets[i])
  }

  /** No secret occurs in a protected text, and protecting it again changes nothing. */
  lemma {:induction false} NoSecretSurvives(p: Policy, text: string)
    requires p.Ready() && CoversForeign(p)
    ensures var r := Protected(p, p.secrets, text);
            Free(p, r) && Protected(p, p.secrets, r) == r
  {
    var r := Protected(p, p.secrets, text);
    forall i | 0 <= i < |p.secrets|
      ensures !Contains(r, p.secrets[i])
    {
      AbsentStaysAbsent(p, p.secrets, text, p.secrets[i]);
    }
    AbsentAllKept(p, p.secrets, r);
  }

  predicate StarFree(list: seq<string>) { forall i :: 0 <= i < |list| ==> '*' !in list[i] }

  /** Obfuscating leaves no secret when none of them holds a star, keeps the length and is done after one
      pass. */
  lemma {:induction false} StarFreeSurviveNot(p: Policy, text: string)
    requires p.Ready() && p.mode == Obfuscate && StarFree(p.secrets)
    ensures var r := Protected(p, p.secrets, text);
            Free(p, r) && |r| == |text| && Protected(p, p.secrets, r) == r
  {
    assert CoversForeign(p);
    NoSecretSurvives(p, text);
  }

  /** In redacting mode the same holds when the replacement shares no character with a secret. */
  lemma {:induction false} RedactedSurviveNot(p: Policy, text: string)
    requires p.Ready() && p.mode == Redact && forall i :: 0 <= i < |p.secrets| ==> Foreign(p.replacement, p.secrets[i])
    ensures var r := Protected(p, p.secrets, text);
            Free(p, r) && Protected(p, p.secrets, r) == r
  {
    assert CoversForeign(p);
    NoSecretSurvives(p, text);
  }

  // ---- Obfuscating: one star for each character ----

  function Masked(text: string, s: string): (r: string)
    requires s != ""
    ensures |r| == |text|
  {
    Replace(text, s, Stars(|s|))
  }

  /** The text with some of its characters starred. */
  ghost predicate Veils(veiled: string, text: string)
  {
    |veiled| == |text| && forall i :: 0 <= i < |text| ==> veiled[i] == text[i] || veiled[i] == '*'
  }

  /** An occurrence of `s` all of whose characters are starred. */
  ghost predicate Struck(text: string, veiled: string, s: string, at: int)
  {
    |veiled| == |text| && Occurs(s, text, at) && veiled[at..at + |s|] == Stars(|s|)
  }

  predicate Overlap(at: int, s: string, k: int, w: string) { at < k + |w| && k < at + |s| }

  /** Starless text has only the occurrences it had before characters were starred. */
  lemma {:induction false} VeiledOccurrence(veiled: string, text: string, w: string, at: int)
    requires Veils(veiled, text) && '*' !in w && Occurs(w, veiled, at)
    ensures Occurs(w, text, at)
  {
    forall i | 0 <= i < |w|
      ensures text[at..at + |w|][i] == w[i]
    {
      assert veiled[at..at + |w|][i] == veiled[at + i] && w[i] in w;
    }
  }

  lemma {:induction false} MaskedVeils(text: string, s: string)
    requires s != ""
    ensures Veils(Masked(text, s), text)
    decreases |text|
  {
    if text != "" {
      MaskedVeils(if s <= text then text[|s|..] else text[1..], s);
    }
  }

  lemma {:induction false} StruckLater(text: string, veiled: string, s: string, from: nat, at: int)
    requires from <= |text| == |veiled| && Struck(text[from..], veiled[from..], s, at)
    ensures Struck(text, veiled, s, from + at)
  {
    assert text[from..][at..at + |s|] == text[from + at..from + at + |s|];
    assert veiled[from..][at..at + |s|] == veiled[from + at..from + at + |s|];
  }

  /** How far the scan steps, and what is masked from there on; a step over an occurrence stars it. */
  lemma {:induction false} MaskedStep(text: string, s: string) returns (from: nat)
    requires s != "" && text != ""
    ensures from == (if s <= text then |s| else 1) <= |text|
    ensures Masked(text, s)[from..] == Masked(text[from..], s)
    ensures if s <= text then Struck(text, Masked(text, s), s, 0) else Masked(text, s)[0] == text[0]
  {
    from := if s <= text then |s| else 1;
    if s <= text { assert Masked(text, s)[0..|s|] == Stars(|s|); }
  }

  lemma {:induction false} ChangeIsStruck(text: string, s: string, i: nat) returns (at: int)
    requires s != "" && i < |text| && Masked(text, s)[i] != text[i]
    ensures Struck(text, Masked(text, s), s, at) && at <= i < at + |s|
    decreases |text|
  {
    var from := MaskedStep(text, s);
    if s <= text && i < |s| {
      at := 0;
    } else {
      var veiled := Masked(text, s);
      assert from <= i;
      assert veiled[from..][i - from] == veiled[i] && text[from..][i - from] == text[i];
      at := ChangeIsStruck(text[from..], s, i - from);
      StruckLater(text, veiled, s, from, at);
      at := from + at;
    }
  }

  lemma {:induction false} OccursBehind(text: string, s: string, from: nat, k: int)
    requires Occurs(s, text, k) && from <= k
    ensures Occurs(s, text[from..], k - from)
  {
    assert text[from..][k - from..k - from + |s|] == text[k..k + |s|];
  }

  lemma {:induction false} OccurrenceIsStruck(text: string, s: string, k: int) returns (at: int)
    requires s != "" && Occurs(s, text, k)
    ensures Struck(text, Masked(text, s), s, at) && Overlap(at, s, k, s)
    decreases |text|
  {
    var from := MaskedStep(text, s);
    if s <= text && k < |s| {
      at := 0;
    } else {
      OccursBehind(text, s, from, k);
      at := OccurrenceIsStruck(text[from..], s, k - from);
      StruckLater(text, Masked(text, s), s, from, at);
      at := from + at;
    }
  }

  // ---- What obfuscating changes ----

  lemma {:induction false} ProtectedVeils(p: Policy, rest: seq<string>, text: string)
    requires p.mode == Obfuscate && NoneEmpty(rest)
    ensures Veils(Protected(p, rest, text), text)
    decreases |rest|
  {
    if rest != [] {
      MaskedVeils(text, rest[0]);
      ProtectedVeils(p, rest[1..], Masked(text, rest[0]));
    }
  }

  /** A character obfuscating changes becomes a star and lay inside an occurrence of a secret in the
      original text. */
  lemma {:induction false} ChangesOnlySecrets(p: Policy, rest: seq<string>, text: string, i: nat)
    returns (j: nat, at: int)
    requires p.mode == Obfuscate && NoneEmpty(rest) && StarFree(rest)
    requires i < |text| && Protected(p, rest, text)[i] != text[i]
    ensures Protected(p, rest, text)[i] == '*'
    ensures j < |rest| && Occurs(rest[j], text, at) && at <= i < at + |rest[j]|
    decreases |rest|
  {
    ProtectedVeils(p, rest, text);
    var next := Masked(text, rest[0]);
    MaskedVeils(text, rest[0]);
    if next[i] != text[i] {
      at := ChangeIsStruck(text, rest[0], i);
      j := 0;
    } else {
      j, at := ChangesOnlySecrets(p, rest[1..], next, i);
      VeiledOccurrence(next, text, rest[1..][j], at);
      j := j + 1;
    }
  }

  /** An occurrence no other occurrence of a secret up to its own place in the list overlaps is starred
      whole; so a longer secret, which stands earlier, is never spoilt by a shorter one inside it. */
  lemma {:induction false} StandaloneIsMaskedWhole(p: Policy, rest: seq<string>, m: nat, text: string, k: int)
    requires p.mode == Obfuscate && NoneEmpty(rest) && StarFree(rest) && m < |rest| && Occurs(rest[m], text, k)
    requires forall j, at :: 0 <= j <= m && Occurs(rest[j], text, at) && Overlap(at, rest[j], k, rest[m])
                        ==> j == m && at == k
    ensures Struck(text, Protected(p, rest, text), rest[m], k)
    decreases |rest|
  {
    var next := Masked(text, rest[0]);
    var b := rest[m];
    MaskedVeils(text, rest[0]);
    ProtectedVeils(p, rest[1..], next);
    if m == 0 {
      var at := OccurrenceIsStruck(text, b, k);
      assert next[k..k + |b|] == Stars(|b|);
      forall i | k <= i < k + |b|
        ensures Protected(p, rest, text)[i] == '*'
      {
        assert next[i] == next[k..k + |b|][i - k];
      }
    } else {
      forall i | k <= i < k + |b|
        ensures next[i] == text[i]
      {
        if next[i] != text[i] { var at := ChangeIsStruck(text, rest[0], i); }
      }
      assert next[k..k + |b|] == text[k..k + |b|];
      forall j, at | 0 <= j <= m - 1 && Occurs(rest[1..][j], next, at) && Overlap(at, rest[1..][j], k, b)
        ensures j == m - 1 && at == k
      {
        VeiledOccurrence(next, text, rest[j + 1], at);
      }
      StandaloneIsMaskedWhole(p, rest[1..], m - 1, next, k);
    }
  }

  // ---- Secrets that hold stars ----

  predicate Capped(s: string) { s != "" && s[0] != '*' && s[|s| - 1] != '*' }

  lemma {:induction false} StarsFit(text: string, s: string, w: string, at: int, k: int)
    requires s != "" && Capped(w) && Struck(text, Masked(text, s), s, at)
    requires Occurs(w, Masked(text, s), k) && Overlap(at, s, k, w)
    ensures k < at && at + |s| < k + |w| && Occurs(Stars(|s|), w, at - k)
  {
    var r := Masked(text, s);
    assert r[k..k + |w|][0] == r[k] && r[k..k + |w|][|w| - 1] == r[k + |w| - 1];
    forall i | at <= i < at + |s|
      ensures r[i] == '*'
    {
      assert r[at..at + |s|][i - at] == r[i];
    }
    assert w[at - k..at - k + |s|] == r[at..at + |s|];
  }

  /** Masking `s` brings in no occurrence of a capped secret with no room for its stars. */
  lemma {:induction false} NoRoomNothingNew(text: string, s: string, w: string)
    requires s != "" && Capped(w) && !Contains(text, w) && !Contains(w, Stars(|s|))
    ensures !Contains(Masked(text, s), w)
  {
    var r := Masked(text, s);
    forall k | 0 <= k <= |r|
      ensures !Occurs(w, r, k)
    {
      if Occurs(w, r, k) {
        assert !Occurs(w, text, k);
        var i :| 0 <= i < |w| && text[k..k + |w|][i] != w[i];
        assert r[k..k + |w|][i] == r[k + i];
        var at := ChangeIsStruck(text, s, k + i);
        StarsFit(text, s, w, at, k);
      }
    }
  }

  lemma {:induction false} CappedIsGone(text: string, s: string)
    requires Capped(s)
    ensures !Contains(Masked(text, s), s)
  {
    var r := Masked(text, s);
    forall k | 0 <= k <= |r|
      ensures !Occurs(s, r, k)
    {
      if Occurs(s, r, k) {
        var at: int;
        if Occurs(s, text, k) {
          at := OccurrenceIsStruck(text, s, k);
        } else {
          var i :| 0 <= i < |s| && text[k..k + |s|][i] != s[i];
          assert r[k..k + |s|][i] == r[k + i];
          at := ChangeIsStruck(text, s, k + i);
        }
        StarsFit(text, s, s, at, k);
      }
    }
  }

  /** A single secret is gone from every masked text exactly when it neither starts nor ends with a
      star. */
  lemma {:induction false} HiddenIffCapped(s: string)
    requires s != ""
    ensures (forall text :: !Contains(Masked(text, s), s)) <==> Capped(s)
  {
    if Capped(s) {
      forall text
        ensures !Contains(Masked(text, s), s)
      {
        CappedIsGone(text, s);
      }
    } else {
      var text := StarredCounterexample(s);
      assert Contains(Masked(text, s), s);
    }
  }

  /** A secret that starts or ends with a star and a text in which masking leaves it: `*a` in `*aa`,
      `a*` in `aa*`. */
  lemma {:induction false} StarredCounterexample(s: string) returns (text: string)
    requires s != "" && !Capped(s)
    ensures Contains(Masked(text, s), s)
  {
    if s[0] == '*' {
      text := s + s[1..];
      StarredStart(s);
    } else {
      text := s[..|s| - 1] + s;
      StarredEnd(s);
    }
  }

  lemma {:induction false} StarredStart(s: string)
    requires s != "" && s[0] == '*'
    ensures Contains(Masked(s + s[1..], s), s)
  {
    var n := |s|;
    var r := Masked(s + s[1..], s);
    assert (s + s[1..])[n..] == s[1..];
    TooShort(s[1..], s);
    assert r == Stars(n) + s[1..];
    assert r[n - 1..n - 1 + n] == s;
    assert Occurs(s, r, n - 1);
  }

  lemma {:induction false} StarredEnd(s: string)
    requires s != "" && s[0] != '*' && s[|s| - 1] == '*'
    ensures Contains(Masked(s[..|s| - 1] + s, s), s)
  {
    var n, text := |s|, s[..|s| - 1] + s;
    forall j | 0 <= j < n - 1
      ensures !Occurs(s, text, j)
    {
      if Occurs(s, text, j) { OccurrenceEnds(s, text, j); }
    }
    SkipsTo(text, s, n - 1);
    assert text[n - 1..] == s && s[n..] == "";
    assert Masked(s, s) == Stars(n);
    assert Masked(text, s)[..n] == s;
    assert Occurs(s, Masked(text, s), 0);
  }

  lemma {:induction false} OccurrenceEnds(s: string, text: string, at: int)
    requires s != "" && Occurs(s, text, at)
    ensures text[at] == s[0] && text[at + |s| - 1] == s[|s| - 1]
  {
    assert text[at..at + |s|][0] == text[at] && text[at..at + |s|][|s| - 1] == text[at + |s| - 1];
  }

  lemma {:induction false} SkipsTo(text: string, s: string, k: nat)
    requires s != "" && k <= |text| && forall j :: 0 <= j < k ==> !Occurs(s, text, j)
    ensures Masked(text, s) == text[..k] + Masked(text[k..], s)
    decreases k
  {
    if k > 0 {
      assert s <= text ==> Occurs(s, text, 0);
      forall j | 0 <= j < k - 1
        ensures !Occurs(s, text[1..], j)
      {
        assert Occurs(s, text[1..], j) ==> Occurs(s, text, j + 1);
      }
      SkipsTo(text[1..], s, k - 1);
      assert Masked(text, s) == [text[0]] + Masked(text[1..], s);
      assert text[1..][k - 1..] == text[k..] && [text[0]] + text[1..][..k - 1] == text[..k];
    } else {
      assert text[0..] == text;
    }
  }

  lemma {:induction false} TooShort(text: string, s: string)
    requires |text| < |s|
    ensures Masked(text, s) == text
    decreases |text|
  {
    if text != "" { TooShort(text[1..], s); }
  }

  /** No secret survives obfuscating if each is capped and none has room for the stars of a later one. */
  predicate NoRoom(list: seq<string>)
  {
    (forall i :: 0 <= i < |list| ==> Capped(list[i])) &&
    (forall i, j :: 0 <= i < j < |list| ==> !Contains(list[i], Stars(|list[j]|)))
  }

  lemma {:induction false} NoRoomKeepsAbsent(p: Policy, rest: seq<string>, text: string, w: string)
    requires p.mode == Obfuscate && NoneEmpty(rest) && Capped(w) && !Contains(text, w)
    requires forall j :: 0 <= j < |rest| ==> !Contains(w, Stars(|rest[j]|))
    ensures !Contains(Protected(p, rest, text), w)
    decreases |rest|
  {
    if rest != [] {
      NoRoomNothingNew(text, rest[0], w);
      NoRoomKeepsAbsent(p, rest[1..], Masked(text, rest[0]), w);
    }
  }

  lemma {:induction false} NoRoomHides(p: Policy, rest: seq<string>, text: string)
    requires p.mode == Obfuscate && NoneEmpty(rest) && NoRoom(rest)
    ensures forall i :: 0 <= i < |rest| ==> !Contains(Protected(p, rest, text), rest[i])
    decreases |rest|
  {
    if rest != [] {
      var next := Masked(text, rest[0]);
      CappedIsGone(text, rest[0]);
      NoRoomKeepsAbsent(p, rest[1..], next, rest[0]);
      NoRoomHides(p, rest[1..], next);
      forall i | 0 <= i < |rest|
        ensures !Contains(Protected(p, rest, text), rest[i])
      {
        assert i > 0 ==> rest[i] == rest[1..][i - 1];
      }
    }
  }

  // ---- JSON values ----

  datatype Json = Text(text: string) | List(items: seq<Json>) | Object(fields: seq<Field>) | Primitive(token: string)
  datatype Field = Field(key: string, value: Json)

  /** Where the object holds the key; the number of its fields when it does not. */
  function IndexOf(fields: seq<Field>, key: string): (i: nat)
    ensures i <= |fields|
    ensures i < |fields| ==> fields[i].key == key
    ensures forall j :: 0 <= j < i ==> fields[j].key != key
  {
    if fields == [] || fields[0].key == key then 0 else 1 + IndexOf(fields[1..], key)
  }

  /** An object takes a field: the value of a key it holds already is replaced where it stands. */
  function Put(fields: seq<Field>, f: Field): seq<Field>
  {
    var i := IndexOf(fields, f.key);
    if i < |fields| then fields[i := f] else fields + [f]
  }

  function ProtectJson(p: Policy, v: Json): Json
    requires p.Ready()
    decreases v
  {
    match v
    case Text(text) => Text(Protected(p, p.secrets, text))
    case List(items) => List(seq(|items|, i requires 0 <= i < |items| => ProtectJson(p, items[i])))
    case Object(fields) => Object(ProtectFields(p, fields, |fields|))
    case Primitive(_) => v
  }

  /** The first `n` fields, keys and values both protected, collected into one object. */
  function ProtectFields(p: Policy, fields: seq<Field>, n: nat): seq<Field>
    requires p.Ready() && n <= |fields|
    decreases fields, n
  {
    if n == 0 then []
    else
      var f := fields[n - 1];
      Put(ProtectFields(p, fields, n - 1), Field(Protected(p, p.secrets, f.key), ProtectJson(p, f.value)))
  }

  predicate Unique(fields: seq<Field>)
  {
    forall i, j :: 0 <= i < j < |fields| ==> fields[i].key != fields[j].key
  }

  /** Objects all the way down name no key twice. */
  predicate Keyed(v: Json)
  {
    match v
    case List(items) => forall i :: 0 <= i < |items| ==> Keyed(items[i])
    case Object(fields) => Unique(fields) && forall i :: 0 <= i < |fields| ==> Keyed(fields[i].value)
    case _ => true
  }

  /** No string and no key holds a secret. */
  ghost predicate Clean(p: Policy, v: Json)
  {
    match v
    case Text(text) => Free(p, text)
    case List(items) => forall i :: 0 <= i < |items| ==> Clean(p, items[i])
    case Object(fields) =>
      forall i :: 0 <= i < |fields| ==> Free(p, fields[i].key) && Clean(p, fields[i].value)
    case Primitive(_) => true
  }

  /** Every string and every key of a protected value is free of secrets. */
  lemma {:induction false} JsonIsClean(p: Policy, v: Json)
    requires p.Ready() && CoversForeign(p) && Keyed(v)
    ensures Clean(p, ProtectJson(p, v)) && Keyed(ProtectJson(p, v))
    decreases v
  {
    match v
    case Text(text) => NoSecretSurvives(p, text);
    case List(items) =>
      forall i | 0 <= i < |items|
        ensures Clean(p, ProtectJson(p, items[i])) && Keyed(ProtectJson(p, items[i]))
      {
        JsonIsClean(p, items[i]);
      }
    case Object(fields) => FieldsAreClean(p, fields, |fields|);
    case Primitive(_) =>
  }

  lemma {:induction false} FieldsAreClean(p: Policy, fields: seq<Field>, n: nat)
    requires p.Ready() && CoversForeign(p) && n <= |fields| && forall i :: 0 <= i < n ==> Keyed(fields[i].value)
    ensures Clean(p, Object(ProtectFields(p, fields, n))) && Keyed(Object(ProtectFields(p, fields, n)))
    decreases fields, n
  {
    if n > 0 {
      var f := fields[n - 1];
      FieldsAreClean(p, fields, n - 1);
      JsonIsClean(p, f.value);
      NoSecretSurvives(p, f.key);
      PutIsClean(p, ProtectFields(p, fields, n - 1), Field(Protected(p, p.secrets, f.key), ProtectJson(p, f.value)));
    }
  }

  /** A clean field put into a clean object leaves it clean, and its keys different. */
  lemma {:induction false} PutIsClean(p: Policy, fields: seq<Field>, f: Field)
    requires Clean(p, Object(fields)) && Keyed(Object(fields)) && Free(p, f.key) && Clean(p, f.value) && Keyed(f.value)
    ensures Clean(p, Object(Put(fields, f))) && Keyed(Object(Put(fields, f)))
  {
    var r := Put(fields, f);
    forall i | 0 <= i < |r|
      ensures Free(p, r[i].key) && Clean(p, r[i].value) && Keyed(r[i].value)
    {
      assert r[i] == f || (i < |fields| && r[i] == fields[i]);
    }
  }

  /** What is free of secrets is passed on as it is; so protecting twice is protecting once. */
  lemma {:induction false} CleanIsKept(p: Policy, v: Json)
    requires p.Ready() && Clean(p, v) && Keyed(v)
    ensures ProtectJson(p, v) == v
    decreases v
  {
    match v
    case Text(text) => AbsentAllKept(p, p.secrets, text);
    case List(items) =>
      forall i | 0 <= i < |items|
        ensures ProtectJson(p, items[i]) == items[i]
      {
        CleanIsKept(p, items[i]);
      }
    case Object(fields) =>
      CleanFieldsKept(p, fields, |fields|);
      assert fields[..|fields|] == fields;
    case Primitive(_) =>
  }

  lemma {:induction false} CleanFieldsKept(p: Policy, fields: seq<Field>, n: nat)
    requires p.Ready() && n <= |fields| && Clean(p, Object(fields)) && Keyed(Object(fields))
    ensures ProtectFields(p, fields, n) == fields[..n]
    decreases fields, n
  {
    if n > 0 {
      CleanFieldsKept(p, fields, n - 1);
      CleanIsKept(p, fields[n - 1].value);
      AbsentAllKept(p, p.secrets, fields[n - 1].key);
    }
  }

  /** An object whose masked keys stay apart keeps its shape: each field is masked where it stands. */
  lemma {:induction false} FieldsKeepPlaces(p: Policy, fields: seq<Field>, n: nat)
    requires p.Ready() && n <= |fields|
    requires forall i, j :: 0 <= i < j < n ==>
               Protected(p, p.secrets, fields[i].key) != Protected(p, p.secrets, fields[j].key)
    ensures ProtectFields(p, fields, n) == MaskedFields(p, fields[..n])
    decreases n
  {
    if n > 0 {
      FieldsKeepPlaces(p, fields, n - 1);
      MaskedFieldsMore(p, fields, n - 1);
      PutAppends(MaskedFields(p, fields[..n - 1]), MaskedField(p, fields[n - 1]));
    }
  }

  lemma {:induction false} MaskedFieldsMore(p: Policy, fields: seq<Field>, n: nat)
    requires p.Ready() && n < |fields|
    ensures MaskedFields(p, fields[..n + 1]) == MaskedFields(p, fields[..n]) + [MaskedField(p, fields[n])]
    ensures forall i :: 0 <= i < n ==> MaskedFields(p, fields[..n])[i].key == Protected(p, p.secrets, fields[i].key)
  {
    assert fields[..n + 1] == fields[..n] + [fields[n]];
  }

  function MaskedField(p: Policy, f: Field): Field
    requires p.Ready()
  {
    Field(Protected(p, p.secrets, f.key), ProtectJson(p, f.value))
  }

  /** Every field masked by itself, where it stands. */
  function MaskedFields(p: Policy, fields: seq<Field>): seq<Field>
    requires p.Ready()
  {
    seq(|fields|, i requires 0 <= i < |fields| => MaskedField(p, fields[i]))
  }

  lemma {:induction false} PutAppends(fields: seq<Field>, f: Field)
    requires forall i :: 0 <= i < |fields| ==> fields[i].key != f.key
    ensures Put(fields, f) == fields + [f]
  {
  }

  // ---- Where everything stays ----

  /** The value at a path of list places and field places. */
  function At(v: Json, path: seq<nat>): (r: Option<Json>)
    decreases |path|
  {
    if path == [] then Some(v)
    else match v
      case List(items) => if path[0] < |items| then At(items[path[0]], path[1..]) else None
      case Object(fields) => if path[0] < |fields| then At(fields[path[0]].value, path[1..]) else None
      case _ => None
  }

  /** In every object down the value the masked keys differ. */
  predicate KeysApart(p: Policy, v: Json)
    requires p.Ready()
  {
    match v
    case List(items) => forall i :: 0 <= i < |items| ==> KeysApart(p, items[i])
    case Object(fields) =>
      (forall i, j :: 0 <= i < j < |fields| ==>
         Protected(p, p.secrets, fields[i].key) != Protected(p, p.secrets, fields[j].key)) &&
      forall i :: 0 <= i < |fields| ==> KeysApart(p, fields[i].value)
    case _ => true
  }

  /** What a value has become, by itself: a text its own protected text, a primitive itself, and a list or an
      object one of the same size, with each key its own protected key. */
  ghost predicate Became(p: Policy, v: Json, w: Json)
    requires p.Ready()
  {
    match v
    case Text(text) => w == Text(Protected(p, p.secrets, text))
    case Primitive(_) => w == v
    case List(items) => w.List? && |w.items| == |items|
    case Object(fields) =>
      w.Object? && |w.fields| == |fields| &&
      forall i :: 0 <= i < |fields| ==> w.fields[i].key == Protected(p, p.secrets, fields[i].key)
  }

  /** Every part of a protected value stands where it stood. */
  lemma {:induction false} EveryPathIsProtected(p: Policy, v: Json, path: seq<nat>)
    requires p.Ready() && KeysApart(p, v)
    ensures At(v, path).None? <==> At(ProtectJson(p, v), path).None?
    ensures At(v, path).Some? ==> Became(p, At(v, path).value, At(ProtectJson(p, v), path).value)
    decreases |path|
  {
    match v {
      case Object(fields) =>
        FieldsKeepPlaces(p, fields, |fields|);
        assert fields[..|fields|] == fields;
        if path != [] && path[0] < |fields| { EveryPathIsProtected(p, fields[path[0]].value, path[1..]); }
      case List(items) =>
        if path != [] && path[0] < |items| { EveryPathIsProtected(p, items[path[0]], path[1..]); }
      case _ =>
    }
  }

  /** Where masked keys meet, the value of the last of the fields is the one that stays. */
  lemma {:induction false} LastFieldStays(p: Policy, fields: seq<Field>, n: nat, i: nat)
    requires p.Ready() && i < n <= |fields|
    requires forall j :: i < j < n ==> Protected(p, p.secrets, fields[j].key) != Protected(p, p.secrets, fields[i].key)
    ensures Field(Protected(p, p.secrets, fields[i].key), ProtectJson(p, fields[i].value)) in ProtectFields(p, fields, n)
    decreases n
  {
    var front, f := ProtectFields(p, fields, n - 1), MaskedField(p, fields[n - 1]);
    if i == n - 1 {
      PutHolds(front, f);
    } else {
      LastFieldStays(p, fields, n - 1, i);
      PutLeaves(front, f, MaskedField(p, fields[i]));
    }
  }

  lemma {:induction false} PutHolds(fields: seq<Field>, f: Field)
    ensures f in Put(fields, f)
  {
    var r := Put(fields, f);
    var i := IndexOf(fields, f.key);
    assert i < |fields| ==> r[i] == f;
    assert i == |fields| ==> r[|r| - 1] == f;
  }

  lemma {:induction false} PutLeaves(fields: seq<Field>, f: Field, g: Field)
    requires g in fields && g.key != f.key
    ensures g in Put(fields, f)
  {
    var k :| 0 <= k < |fields| && fields[k] == g;
    assert Put(fields, f)[k] == g;
  }

  // ---- Loading the secrets ----

  /** The characters that fit so many bytes of UTF-8: 7 bits for them in one byte, and in more, 5 in the first
      of two, one fewer for each further byte, and 6 in every other. */
  function Room(bytes: nat): nat
  {
    match bytes
    case 0 => 0
    case 1 => 0x80
    case 2 => 0x20 * 0x40
    case 3 => 0x10 * 0x40 * 0x40
    case _ => 0x8 * 0x40 * 0x40 * 0x40
  }

  /** The bytes of a character in UTF-8: as few as have room for it. */
  function Utf8(c: char): (n: nat)
    ensures 1 <= n <= 4 && Room(n - 1) <= c as int < Room(n)
  {
    if c as int < 0x80 then 1 else if c as int < 0x800 then 2 else if c as int < 0x1_0000 then 3 else 4
  }

  function Bytes(s: string): nat { if s == "" then 0 else Utf8(s[0]) + Bytes(s[1..]) }

  function FirstAt(values: seq<string>, v: string): (i: nat)
    requires v in values
    ensures i < |values| && values[i] == v && v !in values[..i]
  {
    if values[0] == v then 0 else 1 + FirstAt(values[1..], v)
  }

  lemma {:induction false} FirstIsFirst(values: seq<string>, k: nat)
    requires k < |values|
    ensures FirstAt(values, values[k]) <= k
  {
    if values[0] != values[k] { FirstIsFirst(values[1..], k - 1); }
  }

  /** Longer in bytes, or as long and named earlier. */
  predicate Before(values: seq<string>, a: string, b: string)
  {
    a in values && b in values &&
    (Bytes(a) > Bytes(b) || (Bytes(a) == Bytes(b) && FirstAt(values, a) < FirstAt(values, b)))
  }

  predicate Ordered(values: seq<string>, s: seq<string>)
  {
    forall i, j :: 0 <= i < j < |s| ==> Before(values, s[i], s[j])
  }

  /** Into a list of falling byte lengths, behind the ones as long. */
  function Insert(s: seq<string>, v: string): seq<string>
  {
    if s == [] || Bytes(s[0]) < Bytes(v) then [v] + s else [s[0]] + Insert(s[1..], v)
  }

  function SortedByLength(s: seq<string>): seq<string>
  {
    if s == [] then [] else Insert(SortedByLength(s[..|s| - 1]), s[|s| - 1])
  }

  lemma {:induction false} InsertMembers(s: seq<string>, v: string)
    ensures |Insert(s, v)| == |s| + 1 && forall x :: x in Insert(s, v) <==> x in s || x == v
  {
    if s != [] && Bytes(s[0]) >= Bytes(v) { InsertMembers(s[1..], v); }
  }

  lemma {:induction false} InsertKeepsOrder(values: seq<string>, s: seq<string>, v: string)
    requires Ordered(values, s) && v in values
    requires forall i :: 0 <= i < |s| ==> s[i] in values && FirstAt(values, s[i]) < FirstAt(values, v)
    ensures Ordered(values, Insert(s, v))
  {
    var r := Insert(s, v);
    if s == [] {
    } else if Bytes(s[0]) < Bytes(v) {
      forall j | 0 < j < |r|
        ensures Before(values, r[0], r[j])
      {
        assert r[j] == s[j - 1] && (j > 1 ==> Before(values, s[0], s[j - 1]));
      }
    } else {
      InsertKeepsOrder(values, s[1..], v);
      InsertMembers(s[1..], v);
      assert r[1..] == Insert(s[1..], v);
      forall j | 0 < j < |r|
        ensures Before(values, r[0], r[j])
      {
        assert r[j] in r[1..];
        if r[j] in s[1..] {
          var k :| 0 <= k < |s[1..]| && s[1..][k] == r[j];
          assert Before(values, s[0], s[k + 1]);
        }
      }
    }
  }

  /** The secrets of a policy: every value that is not empty, once, the longest in bytes first and
      equally long ones in the order they were named. */
  method Load(values: seq<string>) returns (secrets: seq<string>)
    ensures NoneEmpty(secrets) && Ordered(values, secrets)
    ensures forall v :: v in secrets <==> v in values && v != ""
  {
    var kept := [];
    var seen: set<string> := {};
    for i := 0 to |values|
      invariant forall v :: v in kept <==> v in values[..i] && v != ""
      invariant forall v :: v in seen <==> v in kept
      invariant Appearing(values, kept)
    {
      var v := values[i];
      if v != "" && v !in seen {
        Appears(values, kept, i);
        seen := seen + {v};
        kept := kept + [v];
      }
      assert values[..i + 1] == values[..i] + [v];
    }
    assert values[..|values|] == values;
    SortOrders(values, kept);
    secrets := SortedByLength(kept);
    forall i | 0 <= i < |secrets|
      ensures secrets[i] != ""
    {
      assert secrets[i] in secrets;
    }
  }

  /** In the order of their first places. */
  predicate Appearing(values: seq<string>, s: seq<string>)
  {
    (forall i :: 0 <= i < |s| ==> s[i] in values) &&
    (forall i, j :: 0 <= i < j < |s| ==> FirstAt(values, s[i]) < FirstAt(values, s[j]))
  }

  lemma {:induction false} Appears(values: seq<string>, s: seq<string>, n: nat)
    requires Appearing(values, s) && n < |values| && values[n] !in s && values[n] != ""
    requires forall v :: v in s <==> v in values[..n] && v != ""
    ensures Appearing(values, s + [values[n]])
  {
    var v := values[n];
    var first := FirstAt(values, v);
    assert forall i :: 0 <= i < n ==> values[i] in values[..n];
    assert first >= n;
    forall i | 0 <= i < |s|
      ensures FirstAt(values, s[i]) < first
    {
      assert s[i] in values[..n];
      var k :| 0 <= k < n && values[..n][k] == s[i];
      FirstIsFirst(values, k);
    }
  }

  lemma {:induction false} SortOrders(values: seq<string>, s: seq<string>)
    requires Appearing(values, s)
    ensures Ordered(values, SortedByLength(s)) && forall v :: v in SortedByLength(s) <==> v in s
  {
    if s != [] {
      var n := |s| - 1;
      SortOrders(values, s[..n]);
      var sorted := SortedByLength(s[..n]);
      InsertMembers(sorted, s[n]);
      forall i | 0 <= i < |sorted|
        ensures sorted[i] in values && FirstAt(values, sorted[i]) < FirstAt(values, s[n])
      {
        assert sorted[i] in s[..n];
      }
      InsertKeepsOrder(values, sorted, s[n]);
      assert s == s[..n] + [s[n]];
    }
  }
}
