/** Masking sensitive headers: the whole map, and a single value. */
module Redact {
  import opened Text

  type Header = map<string, seq<string>>

  const SENSITIVE_HEADERS := [
    "Authorization", "Proxy-Authorization", "Cookie", "Set-Cookie", "X-Auth-Token", "X-Api-Key", "X-Csrf-Token"]

  const MASK := "***"

  // ----- canonical header names

  /** The characters of a token, section 5.6.2 of RFC 9110. */
  predicate IsTchar(c: char) {
    || 'a' <= c <= 'z' || 'A' <= c <= 'Z' || '0' <= c <= '9'
    || c == '!' || '#' <= c <= '\'' || c == '*' || c == '+' || c == '-' || c == '.'
    || '^' <= c <= '`' || c == '|' || c == '~'
  }

  /** The list of RFC 9110, character by character. */
  lemma TokenCharacters(c: char)
    ensures IsTchar(c) <==> 'a' <= c <= 'z' || 'A' <= c <= 'Z' || '0' <= c <= '9' || c in "!#$%&'*+-.^_`|~"
  {}

  predicate IsToken(s: string) { forall i | 0 <= i < |s| :: IsTchar(s[i]) }

  function CaseChar(c: char, upper: bool): char {
    if upper && 'a' <= c <= 'z' then c - 32 as char
    else if !upper && 'A' <= c <= 'Z' then c + 32 as char
    else c
  }

  /** Upper case at the start and after a dash, lower case elsewhere. */
  function Case(s: string, upper: bool): (r: string)
    ensures |r| == |s|
  {
    if s == [] then [] else
      var c := CaseChar(s[0], upper);
      [c] + Case(s[1..], c == '-')
  }

  /** http.CanonicalHeaderKey: a name that is not a token is left as it is. */
  function Canon(s: string): string { if IsToken(s) then Case(s, true) else s }

  // ----- redaction

  function Masks(n: nat): seq<string> { seq(n, _ => MASK) }

  function Sensitive(extra: seq<string>): set<string> {
    CanonSet(SENSITIVE_HEADERS) + CanonSet(extra)
  }

  /** A map's keys in some order; ranging over a map may take any. */
  ghost predicate IsOrder(h: Header, order: seq<string>) {
    && (forall k :: k in order <==> k in h)
    && (forall i, j | 0 <= i < j < |order| :: order[i] != order[j])
  }

  function Redacted(h: Header, order: seq<string>, sensitive: set<string>): Header
    requires forall k | k in order :: k in h
    decreases |order|
  {
    if order == [] then map[]
    else
      var k := order[|order| - 1];
      Redacted(h, order[..|order| - 1], sensitive)
        [Canon(k) := if Canon(k) in sensitive then Masks(|h[k]|) else h[k]]
  }

  function CanonSet(names: seq<string>): set<string> { set k | k in names :: Canon(k) }

  method AddNames(sensitive: set<string>, names: seq<string>) returns (r: set<string>)
    ensures r == sensitive + CanonSet(names)
  {
    r := sensitive;
    for i := 0 to |names|
      invariant r == sensitive + CanonSet(names[..i])
    {
      assert names[..i + 1] == names[..i] + [names[i]];
      r := r + {Canon(names[i])};
    }
    assert names[..|names|] == names;
  }

  method MaskValues(v: seq<string>) returns (r: seq<string>)
    ensures r == Masks(|v|)
  {
    var masked := new string[|v|](_ => "");
    for i := 0 to |v|
      invariant forall j | 0 <= j < i :: masked[j] == MASK
    {
      masked[i] := MASK;
    }
    r := masked[..];
  }

  method RedactWith(h: Header, order: seq<string>, sensitive: set<string>) returns (out: Header)
    requires forall k | k in order :: k in h
    ensures out == Redacted(h, order, sensitive)
  {
    out := map[];
    for i := 0 to |order|
      invariant out == Redacted(h, order[..i], sensitive)
    {
      assert order[..i + 1][..i] == order[..i];
      var k := order[i];
      var canon := Canon(k);
      if canon in sensitive {
        var masked := MaskValues(h[k]);
        out := out[canon := masked];
      } else {
        out := out[canon := h[k]];
      }
    }
    assert order[..|order|] == order;
  }

  method SensitiveSet(extra: seq<string>) returns (sensitive: set<string>)
    ensures sensitive == Sensitive(extra)
  {
    sensitive := AddNames({}, SENSITIVE_HEADERS);
    sensitive := AddNames(sensitive, extra);
  }

  lemma OrderOfNothing(h: Header, order: seq<string>)
    requires IsOrder(h, order)
    ensures |h| == 0 ==> order == []
  {
    if order != [] { assert order[0] in order && order[0] in h; }
  }

  method RedactHeaders(h: Header, order: seq<string>, extra: seq<string>) returns (out: Header)
    requires IsOrder(h, order)
    ensures out == Redacted(h, order, Sensitive(extra))
  {
    OrderOfNothing(h, order);
    if |h| == 0 {
      return map[];
    }
    var sensitive := SensitiveSet(extra);
    out := RedactWith(h, order, sensitive);
  }

  ghost predicate MasksValue(key: string) { AnyFolds(SENSITIVE_HEADERS, key) }

  ghost predicate AnyFolds(names: seq<string>, key: string) { exists s | s in names :: EqualFold(s, key) }

  method FindFolded(names: seq<string>, key: string) returns (hit: bool)
    ensures hit == AnyFolds(names, key)
  {
    for i := 0 to |names|
      invariant forall j | 0 <= j < i :: !EqualFold(names[j], key)
    {
      if EqualFold(names[i], key) {
        return true;
      }
    }
    hit := false;
  }

  method RedactValue(key: string, value: string) returns (r: string)
    ensures r == if MasksValue(key) then MASK else value
    ensures r == if MaskedByDefault(key) then "***" else value
  {
    DefaultNames(key);
    var hit := FindFolded(SENSITIVE_HEADERS, key);
    r := if hit then MASK else value;
  }

  // ----- canonical form and case

  /** On token characters, being equal up to case and having the same canonical form are the same. */
  lemma CharCase(a: char, b: char, upper: bool)
    requires IsTchar(a) && IsTchar(b)
    ensures CaseChar(a, upper) == CaseChar(b, upper) <==> Fold(a) == Fold(b)
    ensures CaseChar(a, upper) == '-' <==> a == '-'
    ensures IsTchar(CaseChar(a, upper)) && CaseChar(CaseChar(a, upper), upper) == CaseChar(a, upper)
  {}

  lemma FoldSplit(a: string, b: string)
    requires a != [] && b != []
    ensures EqualFold(a, b) <==> Fold(a[0]) == Fold(b[0]) && EqualFold(a[1..], b[1..])
  {
    if EqualFold(a, b) {
      assert forall i | 0 <= i < |a[1..]| :: Fold(a[1..][i]) == Fold(b[1..][i]);
    } else if Fold(a[0]) == Fold(b[0]) && |a| == |b| {
      var i :| 0 <= i < |a| && Fold(a[i]) != Fold(b[i]);
      assert a[1..][i - 1] == a[i] && b[1..][i - 1] == b[i];
    }
  }

  lemma {:induction false} CaseFold(a: string, b: string, upper: bool)
    requires IsToken(a) && IsToken(b)
    ensures Case(a, upper) == Case(b, upper) <==> EqualFold(a, b)
  {
    if a != [] && b != [] {
      CharCase(a[0], b[0], upper);
      FoldSplit(a, b);
      var c, d := CaseChar(a[0], upper), CaseChar(b[0], upper);
      if c == d {
        CaseFold(a[1..], b[1..], c == '-');
        assert Case(a, upper)[1..] == Case(a[1..], c == '-') && Case(b, upper)[1..] == Case(b[1..], c == '-');
      } else {
        assert Case(a, upper)[0] != Case(b, upper)[0];
      }
    } else {
      assert |Case(a, upper)| == |a| && |Case(b, upper)| == |b|;
    }
  }

  /** For tokens, having the same canonical form is being equal without regard to case. */
  lemma CanonIsCaseInsensitive(a: string, b: string)
    requires IsToken(a) && IsToken(b)
    ensures Canon(a) == Canon(b) <==> EqualFold(a, b)
  {
    CaseFold(a, b, true);
  }

  lemma {:induction false} CaseTwice(s: string, upper: bool)
    requires IsToken(s)
    ensures IsToken(Case(s, upper)) && Case(Case(s, upper), upper) == Case(s, upper)
  {
    if s != [] {
      CharCase(s[0], s[0], upper);
      var c := CaseChar(s[0], upper);
      CaseTwice(s[1..], c == '-');
      assert Case(s, upper)[1..] == Case(s[1..], c == '-');
      assert forall i | 1 <= i < |s| :: Case(s, upper)[i] == Case(s[1..], c == '-')[i - 1];
    }
  }

  /** A character that begins a word of a header name: the first, or one after a dash. */
  ghost predicate Begins(s: string, i: nat)
    requires i < |s|
  {
    i == 0 || s[i - 1] == '-'
  }

  lemma {:induction false} CaseShape(s: string, upper: bool, i: nat)
    requires IsToken(s) && i < |s|
    ensures Fold(Case(s, upper)[i]) == Fold(s[i])
    ensures if (i == 0 && upper) || (i > 0 && s[i - 1] == '-') then !('a' <= Case(s, upper)[i] <= 'z')
            else !('A' <= Case(s, upper)[i] <= 'Z')
  {
    CharCase(s[0], s[0], upper);
    if i > 0 {
      var c := CaseChar(s[0], upper);
      CaseShape(s[1..], c == '-', i - 1);
      assert Case(s, upper)[i] == Case(s[1..], c == '-')[i - 1];
    }
  }

  /**
   * The canonical form of a token is the token up to case, with a capital wherever a letter
   * begins a word and a small letter elsewhere. What is not a token stays as it is.
   */
  lemma CanonShape(s: string)
    ensures !IsToken(s) ==> Canon(s) == s
    ensures IsToken(s) ==>
              && EqualFold(Canon(s), s)
              && forall i | 0 <= i < |s| ::
                   if Begins(s, i) then !('a' <= Canon(s)[i] <= 'z') else !('A' <= Canon(s)[i] <= 'Z')
  {
    if IsToken(s) {
      forall i | 0 <= i < |s|
        ensures Fold(Canon(s)[i]) == Fold(s[i])
        ensures if Begins(s, i) then !('a' <= Canon(s)[i] <= 'z') else !('A' <= Canon(s)[i] <= 'Z')
      {
        CaseShape(s, true, i);
      }
    }
  }

  lemma CanonTwice(s: string)
    ensures Canon(Canon(s)) == Canon(s)
  {
    if IsToken(s) { CaseTwice(s, true); }
  }

  // ----- what redaction guarantees

  /**
   * Whatever order the map is ranged over: the output's keys are the canonical forms of the
   * input's, and each holds, masked if it is sensitive and as a copy if not, the values of some
   * input key of that form.
   */
  lemma {:induction false} RedactionMeaning(h: Header, order: seq<string>, sensitive: set<string>, c: string)
    requires forall k | k in order :: k in h
    ensures c in Redacted(h, order, sensitive) <==> exists k :: k in order && Canon(k) == c
    ensures c in Redacted(h, order, sensitive) ==>
              exists k :: k in order && Canon(k) == c &&
                          Redacted(h, order, sensitive)[c] == if c in sensitive then Masks(|h[k]|) else h[k]
    decreases |order|
  {
    if order != [] {
      var before, k := order[..|order| - 1], order[|order| - 1];
      RedactionMeaning(h, before, sensitive, c);
      assert forall k' | k' in before :: k' in order;
      assert forall k' | k' in order :: k' in before || k' == k;
      assert k in order;
    }
  }

  /** No value under a sensitive key survives. */
  lemma SensitiveValuesAreMasked(h: Header, order: seq<string>, sensitive: set<string>, c: string)
    requires IsOrder(h, order) && c in sensitive && c in Redacted(h, order, sensitive)
    ensures forall v | v in Redacted(h, order, sensitive)[c] :: v == MASK
  {
    RedactionMeaning(h, order, sensitive, c);
  }

  /** Redacting what was already redacted changes nothing, whatever the two orders are. */
  lemma RedactionIsIdempotent(h: Header, order: seq<string>, again: seq<string>, sensitive: set<string>)
    requires IsOrder(h, order) && IsOrder(Redacted(h, order, sensitive), again)
    ensures Redacted(Redacted(h, order, sensitive), again, sensitive) == Redacted(h, order, sensitive)
  {
    var once := Redacted(h, order, sensitive);
    var twice := Redacted(once, again, sensitive);
    forall c ensures c in twice <==> c in once {
      KeysAreCanonical(h, order, sensitive, c);
      RedactionMeaning(once, again, sensitive, c);
      if c in twice {
        var k :| k in again && Canon(k) == c;
        KeysAreCanonical(h, order, sensitive, k);
      }
    }
    forall c | c in twice ensures twice[c] == once[c] {
      ValueTwice(h, order, again, sensitive, c);
    }
  }

  lemma KeysAreCanonical(h: Header, order: seq<string>, sensitive: set<string>, c: string)
    requires IsOrder(h, order)
    ensures c in Redacted(h, order, sensitive) ==> Canon(c) == c
  {
    RedactionMeaning(h, order, sensitive, c);
    if c in Redacted(h, order, sensitive) {
      var k :| k in order && Canon(k) == c;
      CanonTwice(k);
    }
  }

  lemma ValueTwice(h: Header, order: seq<string>, again: seq<string>, sensitive: set<string>, c: string)
    requires IsOrder(h, order) && IsOrder(Redacted(h, order, sensitive), again)
    requires c in Redacted(Redacted(h, order, sensitive), again, sensitive)
    ensures c in Redacted(h, order, sensitive)
    ensures Redacted(Redacted(h, order, sensitive), again, sensitive)[c] == Redacted(h, order, sensitive)[c]
  {
    var once := Redacted(h, order, sensitive);
    RedactionMeaning(once, again, sensitive, c);
    var k :| k in again && Canon(k) == c &&
             Redacted(once, again, sensitive)[c] == if c in sensitive then Masks(|once[k]|) else once[k];
    KeysAreCanonical(h, order, sensitive, k);
    RedactionMeaning(h, order, sensitive, c);
  }

  /** When no two keys share a canonical form the order makes no difference. */
  lemma OrderIrrelevant(h: Header, order: seq<string>, other: seq<string>, sensitive: set<string>)
    requires IsOrder(h, order) && IsOrder(h, other)
    requires forall k, l | k in h && l in h && Canon(k) == Canon(l) :: k == l
    ensures Redacted(h, order, sensitive) == Redacted(h, other, sensitive)
  {
    var a, b := Redacted(h, order, sensitive), Redacted(h, other, sensitive);
    forall c ensures (c in a <==> c in b) && (c in a && c in b ==> a[c] == b[c]) {
      RedactionMeaning(h, order, sensitive, c);
      RedactionMeaning(h, other, sensitive, c);
    }
  }

  /** Equal, case ignored, to one of the names that are always masked. */
  ghost predicate MaskedByDefault(name: string) {
    || EqualFold("Authorization", name) || EqualFold("Proxy-Authorization", name)
    || EqualFold("Cookie", name) || EqualFold("Set-Cookie", name)
    || EqualFold("X-Auth-Token", name) || EqualFold("X-Api-Key", name) || EqualFold("X-Csrf-Token", name)
  }

  lemma DefaultNames(name: string)
    ensures MasksValue(name) <==> MaskedByDefault(name)
  {
    var all := SENSITIVE_HEADERS;
    assert all[0] in all && all[1] in all && all[2] in all && all[3] in all && all[4] in all && all[5] in all && all[6] in all;
  }

  lemma DefaultsAreTokens()
    ensures forall s | s in SENSITIVE_HEADERS :: IsToken(s)
  {
    assert IsToken("Authorization");
    assert IsToken("Proxy-Authorization");
    assert IsToken("Cookie");
    assert IsToken("Set-Cookie");
    assert IsToken("X-Auth-Token");
    assert IsToken("X-Api-Key");
    assert IsToken("X-Csrf-Token");
  }

  /** Some name of the list is a token and equals this one up to case. */
  ghost predicate TokenFolds(names: seq<string>, name: string) {
    exists s | s in names :: IsToken(s) && EqualFold(s, name)
  }

  lemma CanonIsTokenIff(s: string)
    ensures IsToken(Canon(s)) <==> IsToken(s)
  {
    if IsToken(s) { CaseTwice(s, true); }
  }

  lemma CanonMatch(s: string, name: string)
    ensures Canon(s) == Canon(name) <==>
            if IsToken(name) then IsToken(s) && EqualFold(s, name) else s == name
  {
    CanonIsTokenIff(s);
    CanonIsTokenIff(name);
    if IsToken(s) && IsToken(name) { CanonIsCaseInsensitive(s, name); }
  }

  lemma NamesMatch(names: seq<string>, name: string)
    ensures Canon(name) in CanonSet(names) <==> if IsToken(name) then TokenFolds(names, name) else name in names
  {
    forall s | s in names
      ensures Canon(s) == Canon(name) <==>
              if IsToken(name) then IsToken(s) && EqualFold(s, name) else s == name
    {
      CanonMatch(s, name);
    }
  }

  /**
   * Whatever extra names are given, RedactHeaders masks a token if and only if it equals, case
   * ignored, a default name or an extra one that is a token; a name that is not a token is
   * masked only if it is given as an extra letter for letter.
   */
  lemma HeadersMaskIff(extra: seq<string>, name: string)
    ensures Canon(name) in Sensitive(extra) <==>
            if IsToken(name) then MasksValue(name) || TokenFolds(extra, name) else name in extra
  {
    DefaultsAreTokens();
    NamesMatch(SENSITIVE_HEADERS, name);
    NamesMatch(extra, name);
  }

  /**
   * What becomes of one header that shares its canonical form with no other, whatever the order:
   * it comes out under that form; every value is "***" if it is a token equal, case ignored, to
   * one of the default names or to an extra that is a token, or if it is given as an extra letter
   * for letter; and otherwise its values come out as they were.
   */
  lemma HeaderMeaning(h: Header, order: seq<string>, extra: seq<string>, name: string)
    requires IsOrder(h, order) && name in h && forall k | k in h && Canon(k) == Canon(name) :: k == name
    ensures var out := Redacted(h, order, Sensitive(extra));
            && Canon(name) in out
            && out[Canon(name)] ==
               if (IsToken(name) && (MaskedByDefault(name) || TokenFolds(extra, name))) || (!IsToken(name) && name in extra)
               then seq(|h[name]|, _ => "***") else h[name]
  {
    HeadersMaskIff(extra, name);
    DefaultNames(name);
    RedactionMeaning(h, order, Sensitive(extra), Canon(name));
    assert name in order;
    assert Masks(|h[name]|) == seq(|h[name]|, _ => "***");
  }

  /**
   * With no extra names, RedactHeaders masks a name if and only if RedactValue does and the
   * name is a token; so for tokens the two agree.
   */
  lemma HeadersAndValueAgree(name: string)
    ensures Canon(name) in Sensitive([]) <==> IsToken(name) && MasksValue(name)
  {
    HeadersMaskIff([], name);
  }

  /** Outside tokens they do differ: a Kelvin sign folds to k, but does not canonicalize. */
  lemma KelvinCookie()
    ensures MasksValue("Coo\U{212A}ie") && Canon("Coo\U{212A}ie") !in Sensitive([])
  {
    var name := "Coo\U{212A}ie";
    assert SENSITIVE_HEADERS[2] == "Cookie";
    assert EqualFold("Cookie", name);
    assert !IsTchar(name[3]);
    HeadersAndValueAgree(name);
  }
}
