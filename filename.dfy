/**
 * The file-name filter of multi_ir.c: `kl_filename_verify`.
 *
 * A customer layout file is named `customer_ir_XXXX.kl`, XXXX being the
 * hexadecimal identity of the remote. The product model read from the
 * kernel command line changes which names are accepted. The result is the
 * identity, or -1 for a name that is not accepted.
 *
 * Character positions: the prefix fills 0-11, the identity digits 12-15,
 * the extension is looked for at 16, and an embedded model at 17.
 */
module Filename {
  import opened CStrings

  const FILENAME_PREFIX := "customer_ir_"
  const FILENAME_EXTENSION := ".kl"

  /** The two identities accepted when the model is not in the name. */
  const DEFAULT_IDENTITY_A := "4cb3"
  const DEFAULT_IDENTITY_B := "fe01"

  /** A model that is filtered as if there were none: "CanC", "AMOI_B" or "EARISE_K" prefixed. */
  predicate IsShortFormModel(model: string) {
    HasPrefixAt(model, 0, "CanC") || HasPrefixAt(model, 0, "AMOI_B") || HasPrefixAt(model, 0, "EARISE_K")
  }

  /** The name ends with the extension. */
  predicate EndsWithExtension(name: string) {
    |name| >= |FILENAME_EXTENSION| && name[|name| - |FILENAME_EXTENSION|..] == FILENAME_EXTENSION
  }

  /** Characters 12-15 of the name are hexadecimal digits. */
  predicate HasHexIdentity(name: string) {
    |name| >= 16 && forall i :: 12 <= i < 16 ==> IsHexDigit(name[i])
  }

  /**
   * The product-model filter: with no model or a short-form model, the
   * extension must start at offset 16; with any other model, either the
   * model starts at offset 17 and the name ends with the extension, or the
   * model is not there and the name carries one of the two default
   * identities followed by the extension. A comparison that would read past
   * the end of the name does not match.
   */
  predicate PassesModelFilter(name: string, model: string) {
    if model != [] && !IsShortFormModel(model) then
      if HasPrefixAt(name, 17, model) then EndsWithExtension(name)
      else
        && (HasPrefixAt(name, 12, DEFAULT_IDENTITY_A) || HasPrefixAt(name, 12, DEFAULT_IDENTITY_B))
        && HasPrefixAt(name, 16, FILENAME_EXTENSION)
    else HasPrefixAt(name, 16, FILENAME_EXTENSION)
  }

  /**
   * `kl_filename_verify(name, model)`: -1 unless the name has the prefix,
   * passes the model filter and has four hex digits at 12-15; otherwise the
   * value `strtol(name + 12, .., 16)` reads.
   */
  function KlFilenameVerify(name: string, model: string): (identity: int)
    ensures identity == -1 || identity >= 0
    ensures identity != -1 ==> HasPrefixAt(name, 0, FILENAME_PREFIX) && HasHexIdentity(name)
    ensures identity != -1 ==> AllHex(name[12..16]) && identity >= HexValue(name[12..16])
  {
    if !HasPrefixAt(name, 0, FILENAME_PREFIX) then -1
    else if !PassesModelFilter(name, model) then -1
    else if !HasHexIdentity(name) then -1
    else
      assert name[12..][..4] == name[12..16];
      IdentityRunCoversDigits(name[12..]);
      Strtol16(name[12..])
  }

  /** The hex run read from the identity position covers its four digits. */
  lemma IdentityRunCoversDigits(s: string)
    requires |s| >= 4 && AllHex(s[..4])
    ensures IsHexDigit(s[0]) && IsHexDigit(s[1])
    ensures Strtol16(s) >= HexValue(s[..4])
  {
    assert forall i :: 0 <= i < 4 ==> IsHexDigit(s[..4][i]);
    var n := HexRunLength(s);
    assert n >= 4;
    HexValuePrefix(s[..n], 4);
    assert s[..n][..4] == s[..4];
  }

  /** A longer run of hex digits never reads as less than its prefix. */
  lemma {:induction false} HexValuePrefix(s: string, k: nat)
    requires k <= |s| && AllHex(s)
    ensures HexValue(s[..k]) <= HexValue(s)
    decreases |s|
  {
    if k < |s| {
      assert s[..|s| - 1][..k] == s[..k];
      HexValuePrefix(s[..|s| - 1], k);
    } else {
      assert s[..k] == s;
    }
  }

  // ---------------------------------------------------------------------
  // The three branches of the filter

  /**
   * No model, or a short-form model: a name is accepted exactly when it has
   * the prefix, four hex digits and the extension at offset 16, and its
   * identity is the 16-bit value of those digits.
   */
  lemma ShortFormAcceptance(name: string, model: string)
    requires model == [] || IsShortFormModel(model)
    ensures KlFilenameVerify(name, model) != -1 <==>
              HasPrefixAt(name, 0, FILENAME_PREFIX) && HasHexIdentity(name) && HasPrefixAt(name, 16, FILENAME_EXTENSION)
    ensures KlFilenameVerify(name, model) != -1 ==>
              AllHex(name[12..16]) && KlFilenameVerify(name, model) == HexValue(name[12..16]) <= 0xFFFF
  {
    if KlFilenameVerify(name, model) != -1 {
      FourDigitsThenDot(name);
    }
  }

  /** With the extension at offset 16, the identity is the value of the four digits. */
  lemma FourDigitsThenDot(name: string)
    requires HasHexIdentity(name) && HasPrefixAt(name, 16, FILENAME_EXTENSION)
    ensures AllHex(name[12..16]) && Strtol16(name[12..]) == HexValue(name[12..16]) <= 0xFFFF
  {
    var s := name[12..];
    assert s[..4] == name[12..16];
    assert s[4] == name[16] == '.';
    Strtol16OfFourDigits(s);
  }

  /**
   * Another model, found at offset 17: a name is accepted exactly when it
   * has the prefix, four hex digits and ends with the extension. The
   * identity is the value of the whole hex run from offset 12, which is the
   * four digits when the separator at offset 16 is not a hex digit.
   */
  lemma EmbeddedModelAcceptance(name: string, model: string)
    requires model != [] && !IsShortFormModel(model) && HasPrefixAt(name, 17, model)
    ensures KlFilenameVerify(name, model) != -1 <==>
              HasPrefixAt(name, 0, FILENAME_PREFIX) && HasHexIdentity(name) && EndsWithExtension(name)
    ensures KlFilenameVerify(name, model) != -1 && !IsHexDigit(name[16]) ==>
              AllHex(name[12..16]) && KlFilenameVerify(name, model) == HexValue(name[12..16]) <= 0xFFFF
  {
    if KlFilenameVerify(name, model) != -1 && !IsHexDigit(name[16]) {
      var s := name[12..];
      assert s[..4] == name[12..16];
      Strtol16OfFourDigits(s);
    }
  }

  /** An accepted name with its model at offset 17 reads the whole hex run from offset 12. */
  lemma EmbeddedModelIdentity(name: string, model: string)
    requires model != [] && !IsShortFormModel(model) && HasPrefixAt(name, 17, model)
    requires HasPrefixAt(name, 0, FILENAME_PREFIX) && HasHexIdentity(name) && EndsWithExtension(name)
    ensures KlFilenameVerify(name, model) == Strtol16(name[12..])
  {
  }

  /**
   * Another model, not found at offset 17: only the default identities
   * 4cb3 and fe01 followed by the extension are accepted.
   */
  lemma FallbackAcceptance(name: string, model: string)
    requires model != [] && !IsShortFormModel(model) && !HasPrefixAt(name, 17, model)
    ensures KlFilenameVerify(name, model) != -1 <==>
              && HasPrefixAt(name, 0, FILENAME_PREFIX)
              && |name| >= 16
              && (name[12..16] == DEFAULT_IDENTITY_A || name[12..16] == DEFAULT_IDENTITY_B)
              && HasPrefixAt(name, 16, FILENAME_EXTENSION)
    ensures KlFilenameVerify(name, model) != -1 ==>
              && (name[12..16] == DEFAULT_IDENTITY_A ==> KlFilenameVerify(name, model) == 0x4cb3)
              && (name[12..16] == DEFAULT_IDENTITY_B ==> KlFilenameVerify(name, model) == 0xfe01)
  {
    if HasPrefixAt(name, 16, FILENAME_EXTENSION) && |name| >= 16
       && (name[12..16] == DEFAULT_IDENTITY_A || name[12..16] == DEFAULT_IDENTITY_B) {
      assert HasHexIdentity(name) by {
        assert forall i :: 0 <= i < 4 ==> IsHexDigit(name[12..16][i]);
      }
      FourDigitsThenDot(name);
      DefaultIdentityValueA();
      DefaultIdentityValueB();
    }
  }

  /** The value of default identity 4cb3. */
  lemma DefaultIdentityValueA()
    ensures AllHex(DEFAULT_IDENTITY_A) && HexValue(DEFAULT_IDENTITY_A) == 0x4cb3
  {
    HexValueSnoc("", '4'); assert "" + ['4'] == "4";
    HexValueSnoc("4", 'c'); assert "4" + ['c'] == "4c";
    HexValueSnoc("4c", 'b'); assert "4c" + ['b'] == "4cb";
    HexValueSnoc("4cb", '3'); assert "4cb" + ['3'] == "4cb3";
  }

  /** The value of default identity fe01. */
  lemma DefaultIdentityValueB()
    ensures AllHex(DEFAULT_IDENTITY_B) && HexValue(DEFAULT_IDENTITY_B) == 0xfe01
  {
    HexValueSnoc("", 'f'); assert "" + ['f'] == "f";
    HexValueSnoc("f", 'e'); assert "f" + ['e'] == "fe";
    HexValueSnoc("fe", '0'); assert "fe" + ['0'] == "fe0";
    HexValueSnoc("fe0", '1'); assert "fe0" + ['1'] == "fe01";
  }

  // ---------------------------------------------------------------------
  // Names built from their parts

  /** A name laid out as the prefix, four identity characters, then the rest. */
  lemma NameLayout(digits: string, tail: string)
    requires |digits| == 4
    ensures var name := FILENAME_PREFIX + digits + tail;
            && HasPrefixAt(name, 0, FILENAME_PREFIX)
            && |name| == 16 + |tail| && name[12..16] == digits && name[16..] == tail
            && (AllHex(digits) ==> HasHexIdentity(name))
  {
    var name := FILENAME_PREFIX + digits + tail;
    assert name[0..12] == FILENAME_PREFIX;
    assert name[12..16] == digits;
    assert name[16..] == tail;
    forall i | 12 <= i < 16 ensures name[i] == digits[i - 12] {
      assert name[i] == name[12..16][i - 12];
    }
  }

  /**
   * With no model or a short-form model, `customer_ir_` + four hex digits +
   * a tail starting with ".kl" is accepted with the digits' value.
   */
  lemma ShortFormName(digits: string, tail: string, model: string)
    requires model == [] || IsShortFormModel(model)
    requires |digits| == 4 && AllHex(digits) && HasPrefixAt(tail, 0, FILENAME_EXTENSION)
    ensures KlFilenameVerify(FILENAME_PREFIX + digits + tail, model) == HexValue(digits)
  {
    var name := FILENAME_PREFIX + digits + tail;
    NameLayout(digits, tail);
    assert name[16..19] == tail[..3];
    ShortFormAcceptance(name, model);
  }

  /**
   * With another model, `customer_ir_` + four hex digits + a separator that
   * is not a hex digit + the model + ".kl" is accepted with the digits' value.
   */
  lemma EmbeddedModelName(digits: string, sep: char, model: string)
    requires model != [] && !IsShortFormModel(model)
    requires |digits| == 4 && AllHex(digits) && !IsHexDigit(sep)
    ensures KlFilenameVerify(FILENAME_PREFIX + digits + ([sep] + model + FILENAME_EXTENSION), model) == HexValue(digits)
  {
    var tail := [sep] + model + FILENAME_EXTENSION;
    var name := FILENAME_PREFIX + digits + tail;
    NameLayout(digits, tail);
    assert name[17..17 + |model|] == tail[1..1 + |model|] == model;
    assert name[|name| - 3..] == tail[|tail| - 3..] == FILENAME_EXTENSION;
    assert name[16] == sep;
    EmbeddedModelAcceptance(name, model);
  }

  // ---------------------------------------------------------------------
  // Named cases

  lemma SampleIdentityValue()
    ensures AllHex("9f00") && HexValue("9f00") == 0x9f00
  {
    HexValueSnoc("", '9'); assert "" + ['9'] == "9";
    HexValueSnoc("9", 'f'); assert "9" + ['f'] == "9f";
    HexValueSnoc("9f", '0'); assert "9f" + ['0'] == "9f0";
    HexValueSnoc("9f0", '0'); assert "9f0" + ['0'] == "9f00";
  }

  lemma FoobarIsNotShortForm()
    ensures !IsShortFormModel("foobar")
  {
    assert "foobar"[0..4][0] == 'f';
    assert "foobar"[0..6][0] == 'f';
  }

  /** Without a model: the plain name is accepted with its identity. */
  lemma NoModelExample()
    ensures KlFilenameVerify("customer_ir_9f00.kl", "") == 0x9f00
  {
    assert FILENAME_PREFIX + "9f00" + ".kl" == "customer_ir_9f00.kl";
    SampleIdentityValue();
    assert ".kl"[0..3] == FILENAME_EXTENSION;
    ShortFormName("9f00", ".kl", "");
  }

  /** The extension test is a prefix test: trailing text after ".kl" passes. */
  lemma TrailingTextExample()
    ensures KlFilenameVerify("customer_ir_9f00.kl.bak", "") == 0x9f00
  {
    assert FILENAME_PREFIX + "9f00" + ".kl.bak" == "customer_ir_9f00.kl.bak";
    SampleIdentityValue();
    assert ".kl.bak"[0..3] == FILENAME_EXTENSION;
    ShortFormName("9f00", ".kl.bak", "");
  }

  /** Without a model: non-hex identity digits, and a wrong prefix. */
  lemma NoModelRejections()
    ensures KlFilenameVerify("customer_ir_xxxx.kl", "") == -1
    ensures KlFilenameVerify("other_9f00.kl", "") == -1
  {
    assert !IsHexDigit("customer_ir_xxxx.kl"[12]);
    assert "other_9f00.kl"[0..12][0] != FILENAME_PREFIX[0];
  }

  /** A short-form model filters like no model. */
  lemma ShortFormExample()
    ensures KlFilenameVerify("customer_ir_9f00.kl", "CanC") == 0x9f00
  {
    assert FILENAME_PREFIX + "9f00" + ".kl" == "customer_ir_9f00.kl";
    SampleIdentityValue();
    assert "CanC"[0..4] == "CanC";
    assert ".kl"[0..3] == FILENAME_EXTENSION;
    ShortFormName("9f00", ".kl", "CanC");
  }

  /** The model must start at offset 17, one separator after the digits. */
  lemma EmbeddedModelExample()
    ensures KlFilenameVerify("customer_ir_9f00_foobar.kl", "foobar") == 0x9f00
  {
    assert FILENAME_PREFIX + "9f00" + (['_'] + "foobar" + FILENAME_EXTENSION) == "customer_ir_9f00_foobar.kl";
    SampleIdentityValue();
    FoobarIsNotShortForm();
    EmbeddedModelName("9f00", '_', "foobar");
  }

  /** The hex run from offset 12 of "customer_ir_9f00afoobar.kl" is "9f00af". */
  lemma HexRunExample()
    ensures Strtol16("customer_ir_9f00afoobar.kl"[12..]) == 0x9f00af
  {
    var s := "customer_ir_9f00afoobar.kl"[12..];
    SampleIdentityValue();
    HexValueSnoc("9f00", 'a'); assert "9f00" + ['a'] == "9f00a";
    HexValueSnoc("9f00a", 'f'); assert "9f00a" + ['f'] == "9f00af";
    assert s[..6] == "9f00af";
    assert s[6] == 'o';
    Strtol16OfRun(s, 6);
  }

  /** A separator that is a hex digit lengthens the identity. */
  lemma HexSeparatorExample()
    ensures KlFilenameVerify("customer_ir_9f00afoobar.kl", "foobar") == 0x9f00af
  {
    var name := "customer_ir_9f00afoobar.kl";
    assert HasPrefixAt(name, 0, FILENAME_PREFIX) by { assert name[0..12] == FILENAME_PREFIX; }
    assert HasPrefixAt(name, 17, "foobar") by { assert name[17..23] == "foobar"; }
    assert EndsWithExtension(name) by { assert name[23..] == FILENAME_EXTENSION; }
    assert HasHexIdentity(name);
    FoobarIsNotShortForm();
    EmbeddedModelIdentity(name, "foobar");
    HexRunExample();
  }

  /** A model that is not at offset 17 leaves only the default identities. */
  lemma FallbackRejection()
    ensures KlFilenameVerify("customer_ir_9f00foobar.kl", "foobar") == -1
  {
    var name := "customer_ir_9f00foobar.kl";
    FoobarIsNotShortForm();
    assert name[17..23][0] == 'o';
    assert name[12..16][0] == '9';
    FallbackAcceptance(name, "foobar");
  }

  /** A default identity is accepted whatever the model. */
  lemma FallbackExample()
    ensures KlFilenameVerify("customer_ir_4cb3.kl", "foobar") == 0x4cb3
  {
    var name := "customer_ir_4cb3.kl";
    FoobarIsNotShortForm();
    assert |name| == 19;
    assert name[12..16] == DEFAULT_IDENTITY_A;
    assert name[16..19] == FILENAME_EXTENSION;
    FallbackAcceptance(name, "foobar");
  }
}
