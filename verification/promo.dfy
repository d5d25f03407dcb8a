/** The promo-code validator behind `POST /verify-promo`: a fixed table of
    codes and discount percentages, a normalisation of the submitted code
    (upper-case, then trim) and a three-way classification of the request. */
module Promo {
  import opened Wrappers
  import opened JsString
  import Decimal

  /** The discount table: code (upper case) to percentage. */
  const PromoCodes: map<string, nat> :=
    map["PROMO10" := 10, "PROMO20" := 20, "BLACKFRIDAY" := 50, "SOSO70" := 70]

  const MissingMessage: string := "Code promo manquant"
  const InvalidMessage: string := "Code promo invalide"
  const ValidPrefix: string := "Code promo valide : "
  const ValidSuffix: string := "% de réduction !"

  /** The message of an accepted code, with the percentage interpolated. */
  function ValidMessage(reduction: nat): (m: string)
    ensures |m| > |ValidPrefix| + |ValidSuffix|
    ensures m[..|ValidPrefix|] == ValidPrefix && m[|m| - |ValidSuffix|..] == ValidSuffix
    ensures Decimal.AllDigits(m[|ValidPrefix|..|m| - |ValidSuffix|])
    ensures Decimal.ToNat(m[|ValidPrefix|..|m| - |ValidSuffix|]) == reduction
    ensures |m| > |ValidPrefix| + |ValidSuffix| + 1 ==> m[|ValidPrefix|] != '0'
  {
    var digits := Decimal.FromNat(reduction);
    var m := ValidPrefix + digits + ValidSuffix;
    Decimal.ToNatFromNat(reduction);
    assert m[|ValidPrefix|..|m| - |ValidSuffix|] == digits;
    m
  }

  /** A JSON response of the endpoint; `reduction` is `None` when the body
      carries no `reduction` field (the 400 response). */
  datatype PromoResponse = PromoResponse(status: int, valid: bool, reduction: Option<nat>, message: string)

  /** `code.toUpperCase().trim()`, the key looked up in the table. */
  function Normalize(code: string): (key: string)
    ensures Trimmed(key)
    ensures |key| <= |code|
  {
    Trim(Upper(code))
  }

  /** The handler. `code` is the `code` field of the request body; `None`
      stands for an absent field. JavaScript's `!code` is true for an absent
      field and for the empty string, and only for those among strings. The
      inherited-member case of the lookup cannot arise (NormalFormLookupIsOwn). */
  function VerifyPromo(code: Option<string>): (r: PromoResponse)
    ensures r.status == 400 <==> code.None? || code.value == ""
    ensures r.status == 400 || r.status == 200
    ensures r.reduction.None? <==> r.status == 400
    ensures r.valid ==> r.status == 200 && r.reduction.Some? && r.reduction.value > 0
    ensures r.reduction.Some? ==> r.reduction.value in {0, 10, 20, 50, 70}
    ensures r.reduction.Some? ==> 0 <= r.reduction.value <= 100
    ensures r.valid <==> code.Some? && code.value != "" && Normalize(code.value) in PromoCodes
    ensures r.valid ==> r.reduction == Some(PromoCodes[Normalize(code.value)])
    ensures r.status == 400 ==> r == PromoResponse(400, false, None, MissingMessage)
    ensures r.status == 200 && !r.valid ==> r == PromoResponse(200, false, Some(0), InvalidMessage)
    ensures r.valid ==> r.message == ValidMessage(r.reduction.value)
  {
    if code.None? || code.value == "" then
      PromoResponse(400, false, None, MissingMessage)
    else
      var key := Normalize(code.value);
      NormalFormLookupIsOwn(code.value);
      match PropertyLookup(key)
      case Some(OwnNumber(reduction)) =>
        TableContents(key);
        PromoResponse(200, true, Some(reduction), ValidMessage(reduction))
      case None =>
        PromoResponse(200, false, Some(0), InvalidMessage)
      case Some(InheritedMember(_)) =>
        assert false; PromoResponse(500, false, None, "")
  }

  /** True when `v` is `key` with the case of some ASCII letters changed. */
  predicate SameIgnoringCase(v: string, key: string) {
    |v| == |key| && forall i :: 0 <= i < |v| ==> UpperChar(v[i]) == UpperChar(key[i])
  }

  /** A missing or empty code is rejected with 400 and no reduction field. */
  lemma MissingCode(code: Option<string>)
    requires code.None? || code.value == ""
    ensures VerifyPromo(code) == PromoResponse(400, false, None, "Code promo manquant")
  {
  }

  /** The normal form has no lower-case ASCII letter and no surrounding
      whitespace, so it can never name an `Object.prototype` member. */
  lemma NormalFormShape(code: string)
    ensures NoLower(Normalize(code))
    ensures Trimmed(Normalize(code))
  {
    var a, b := TrimIsSlice(Upper(code));
  }

  /** Every key of the table is one of the four codes, and every percentage
      is one of 10, 20, 50, 70. */
  lemma TableContents(key: string)
    requires key in PromoCodes
    ensures key == "PROMO10" || key == "PROMO20" || key == "BLACKFRIDAY" || key == "SOSO70"
    ensures PromoCodes[key] in {10, 20, 50, 70}
  {
    assert key in PromoCodes.Keys;
    assert PromoCodes.Keys == {"PROMO10", "PROMO20", "BLACKFRIDAY", "SOSO70"};
  }

  /** The table holds exactly the four codes, each with its percentage. */
  lemma TableEntries()
    ensures PromoCodes.Keys == {"PROMO10", "PROMO20", "BLACKFRIDAY", "SOSO70"}
    ensures PromoCodes["PROMO10"] == 10 && PromoCodes["PROMO20"] == 20
    ensures PromoCodes["BLACKFRIDAY"] == 50 && PromoCodes["SOSO70"] == 70
  {
  }

  /** The property names every plain JavaScript object inherits from
      `Object.prototype`. Indexing the table object with one of them yields
      an inherited member rather than `undefined`. */
  const ObjectPrototypeMembers: set<string> := {
    "constructor", "hasOwnProperty", "isPrototypeOf", "propertyIsEnumerable",
    "toLocaleString", "toString", "valueOf", "__proto__",
    "__defineGetter__", "__defineSetter__", "__lookupGetter__", "__lookupSetter__"
  }

  /** What `promoCodes[key]` evaluates to when it is not `undefined`. */
  datatype Property = OwnNumber(percent: nat) | InheritedMember(name: string)

  /** `promoCodes[key]` with JavaScript's prototype-chain lookup; `None`
      stands for `undefined`. */
  function PropertyLookup(key: string): (r: Option<Property>)
    ensures key in PromoCodes ==> r == Some(OwnNumber(PromoCodes[key]))
    ensures r.None? <==> key !in PromoCodes && key !in ObjectPrototypeMembers
    ensures r.Some? && r.value.InheritedMember? ==> r.value.name == key && !NoLower(key)
    ensures key !in PromoCodes && key in ObjectPrototypeMembers ==> r == Some(InheritedMember(key))
  {
    if key in PromoCodes then Some(OwnNumber(PromoCodes[key]))
    else if key in ObjectPrototypeMembers then
      PrototypeMembersHaveLower(key);
      Some(InheritedMember(key))
    else None
  }

  /** Every inherited member name contains a lower-case ASCII letter. */
  lemma PrototypeMembersHaveLower(m: string)
    requires m in ObjectPrototypeMembers
    ensures !NoLower(m)
  {
    if m[0] == '_' {
      assert IsAsciiLower(m[2]);
    } else {
      assert IsAsciiLower(m[0]);
    }
  }

  /** Looking up a normal form on the table object never reaches the
      prototype chain, so the handler's `reduction !== undefined` test is
      exactly membership in the table. */
  lemma NormalFormLookupIsOwn(code: string)
    ensures PropertyLookup(Normalize(code)).Some? <==> Normalize(code) in PromoCodes
    ensures Normalize(code) in PromoCodes
         ==> PropertyLookup(Normalize(code)) == Some(OwnNumber(PromoCodes[Normalize(code)]))
  {
    NormalFormShape(code);
    if Normalize(code) in ObjectPrototypeMembers {
      PrototypeMembersHaveLower(Normalize(code));
    }
  }

  /** Normalising twice is normalising once. */
  lemma NormalizeIdempotent(code: string)
    ensures Normalize(Normalize(code)) == Normalize(code)
  {
    var k := Normalize(code);
    NormalFormShape(code);
    UpperOfNoLower(k);
    TrimOfTrimmed(k);
  }

  /** Every table key is upper case and has no surrounding whitespace. */
  lemma TableKeyShape(key: string)
    requires key in PromoCodes
    ensures NoLower(key) && Trimmed(key)
  {
    TableContents(key);
  }

  /** A case variant of an upper-case, trimmed `key`, padded with whitespace,
      normalises to `key`. */
  lemma PaddedSpellingNormalizes(key: string, v: string, before: string, after: string)
    requires NoLower(key) && Trimmed(key)
    requires SameIgnoringCase(v, key)
    requires AllWhitespace(before) && AllWhitespace(after)
    ensures Normalize(before + v + after) == key
  {
    UpperConcat(before + v, after);
    UpperConcat(before, v);
    UpperOfNoLower(key);
    assert Upper(v) == key;
    TrimPadded(Upper(before), key, Upper(after));
  }

  /** Without padding: a case variant of an upper-case, trimmed `key`
      normalises to `key`. */
  lemma SpellingNormalizes(key: string, v: string)
    requires NoLower(key) && Trimmed(key)
    requires SameIgnoringCase(v, key)
    ensures Normalize(v) == key
  {
    UpperOfNoLower(key);
    assert Upper(v) == key;
    TrimOfTrimmed(key);
  }

  /** Every table key, spelled with any mix of ASCII upper and lower case
      and padded with any whitespace, is accepted with its own percentage. */
  lemma KnownCodeAnySpelling(key: string, v: string, before: string, after: string)
    requires key in PromoCodes
    requires SameIgnoringCase(v, key)
    requires AllWhitespace(before) && AllWhitespace(after)
    ensures VerifyPromo(Some(before + v + after))
         == PromoResponse(200, true, Some(PromoCodes[key]), ValidMessage(PromoCodes[key]))
  {
    TableKeyShape(key);
    PaddedSpellingNormalizes(key, v, before, after);
    assert before + v + after != "" by {
      assert |before + v + after| >= |key| > 0;
    }
  }

  /** Any code is its normal form, spelled with some ASCII case changes and
      padded with whitespace; the slice holding the normal form is returned. */
  lemma NormalFormIsSpelling(code: string) returns (a: nat, b: nat)
    ensures a <= b <= |code|
    ensures SameIgnoringCase(code[a..b], Normalize(code))
    ensures AllWhitespace(code[..a]) && AllWhitespace(code[b..])
  {
    var u := Upper(code);
    a, b := TrimIsSlice(u);
    UpperSliceIsSpelling(code, a, b);
    PaddingIsWhitespace(code, a, b);
  }

  /** A slice of a code is a spelling of the same slice upper-cased. */
  lemma UpperSliceIsSpelling(code: string, a: nat, b: nat)
    requires a <= b <= |code|
    ensures SameIgnoringCase(code[a..b], Upper(code)[a..b])
  {
    var u := Upper(code);
    forall i | 0 <= i < b - a
      ensures UpperChar(code[a..b][i]) == UpperChar(u[a..b][i])
    {
      assert u[a..b][i] == u[a + i];
    }
  }

  /** Whitespace around a slice of the upper-cased code is whitespace around
      the same slice of the code itself. */
  lemma PaddingIsWhitespace(code: string, a: nat, b: nat)
    requires a <= b <= |code|
    requires forall i :: 0 <= i < a ==> IsWhitespace(Upper(code)[i])
    requires forall i :: b <= i < |code| ==> IsWhitespace(Upper(code)[i])
    ensures AllWhitespace(code[..a]) && AllWhitespace(code[b..])
  {
    var u := Upper(code);
    forall i | 0 <= i < |code| - b
      ensures IsWhitespace(code[b..][i])
    {
      assert IsWhitespace(u[b + i]);
    }
  }

  /** Conversely to KnownCodeAnySpelling, an accepted code is a spelling of a
      table key padded with whitespace: the key and its slice are returned. */
  lemma AcceptedIsSpelling(code: string) returns (key: string, a: nat, b: nat)
    requires VerifyPromo(Some(code)).valid
    ensures key in PromoCodes && VerifyPromo(Some(code)).reduction == Some(PromoCodes[key])
    ensures a <= b <= |code|
    ensures SameIgnoringCase(code[a..b], key)
    ensures AllWhitespace(code[..a]) && AllWhitespace(code[b..])
  {
    key := Normalize(code);
    a, b := NormalFormIsSpelling(code);
  }

  /** A non-empty code whose normal form is not a key is a normal outcome:
      status 200, not valid, reduction 0. A whitespace-only code is such a
      code, since it is non-empty yet normalises to the empty string. */
  lemma UnknownCode(code: string)
    requires code != ""
    requires Normalize(code) !in PromoCodes
    ensures VerifyPromo(Some(code)) == PromoResponse(200, false, Some(0), "Code promo invalide")
  {
  }

  /** A whitespace-only code is not "missing": it gets the 200 invalid answer. */
  lemma WhitespaceOnlyCode(code: string)
    requires code != "" && AllWhitespace(code)
    ensures Normalize(code) == ""
    ensures VerifyPromo(Some(code)) == PromoResponse(200, false, Some(0), "Code promo invalide")
  {
    var u := Upper(code);
    TrimSlice(u, 0, 0);
  }

  /** The response depends on a present, non-empty code only through its
      normal form. */
  lemma SameNormalFormSameResponse(c1: string, c2: string)
    requires c1 != "" && c2 != ""
    requires Normalize(c1) == Normalize(c2)
    ensures VerifyPromo(Some(c1)) == VerifyPromo(Some(c2))
  {
  }

  /** Submitting the normal form instead of the raw code changes nothing,
      unless the normal form is empty (then the raw code was whitespace and
      the normal form would count as missing). */
  lemma NormalFormAnswersAlike(code: string)
    requires Normalize(code) != ""
    ensures VerifyPromo(Some(Normalize(code))) == VerifyPromo(Some(code))
  {
    NormalizeIdempotent(code);
  }

  /** The message of an accepted code recovers its percentage. */
  lemma ValidMessageInjective(a: nat, b: nat)
    requires ValidMessage(a) == ValidMessage(b)
    ensures a == b
  {
    var da, db := Decimal.FromNat(a), Decimal.FromNat(b);
    var p := |ValidPrefix|;
    assert da == ValidMessage(a)[p..p + |da|];
    assert db == ValidMessage(b)[p..p + |db|];
    Decimal.FromNatInjective(a, b);
  }

  /** The three kinds of message are pairwise distinct. */
  lemma MessagesDistinct(n: nat)
    ensures ValidMessage(n) != InvalidMessage
    ensures ValidMessage(n) != MissingMessage
    ensures InvalidMessage != MissingMessage
  {
    assert ValidMessage(n)[11] == 'v';
    assert InvalidMessage[11] == 'i';
    assert MissingMessage[11] == 'm';
  }

  /** The message alone determines the whole response: status, validity and
      reduction can all be read back from it. */
  lemma MessageDeterminesResponse(c1: Option<string>, c2: Option<string>)
    requires VerifyPromo(c1).message == VerifyPromo(c2).message
    ensures VerifyPromo(c1) == VerifyPromo(c2)
  {
    var r1, r2 := VerifyPromo(c1), VerifyPromo(c2);
    MessagesDistinct(0);
    if r1.valid {
      MessagesDistinct(r1.reduction.value);
    }
    if r2.valid {
      MessagesDistinct(r2.reduction.value);
      if r1.valid {
        ValidMessageInjective(r1.reduction.value, r2.reduction.value);
      }
    }
  }

  /** A worked example: `promo10` is a lower-case spelling of `PROMO10`. */
  lemma Promo10Spelling()
    ensures SameIgnoringCase("promo10", "PROMO10")
  {
    forall i | 0 <= i < 7
      ensures UpperChar("promo10"[i]) == UpperChar("PROMO10"[i])
    {
    }
  }

  /** A worked example: the normal form of `promo10`. */
  lemma Promo10Normalizes()
    ensures Normalize("promo10") == "PROMO10"
  {
    TableKeyShape("PROMO10");
    Promo10Spelling();
    SpellingNormalizes("PROMO10", "promo10");
  }

  /** A worked example: the full response to `promo10`. */
  lemma LowerCasePromo10()
    ensures VerifyPromo(Some("promo10"))
         == PromoResponse(200, true, Some(10), "Code promo valide : 10% de réduction !")
  {
    Promo10Normalizes();
    TableEntries();
    Message10();
  }

  /** A worked example: the message for a ten percent discount. */
  lemma Message10()
    ensures ValidMessage(10) == "Code promo valide : 10% de réduction !"
  {
    assert Decimal.FromNat(1) == "1";
    assert Decimal.FromNat(10) == "10";
    assert ValidPrefix + "10" + ValidSuffix == "Code promo valide : 10% de réduction !";
  }
}
