/**
 * The string part of `get_product_model` in multi_ir.c: finding the product
 * model in the kernel command line. The command line is given as text;
 * opening and reading /proc/cmdline is not part of this model.
 */
module ProductModel {
  import opened CStrings

  /** The marker searched for. */
  const MARKER := "inside_model"
  /** Characters skipped from the marker: `strlen("inside_model=")`. */
  const SKIP := 13
  /** Size of the caller's model buffer, terminator included. */
  const MODEL_BUFFER := 32

  /** The text `pat` first occurs in `text` at index `i`. */
  predicate FirstOccurrence(text: string, pat: string, i: nat) {
    OccursAt(text, pat, i) && forall j :: 0 <= j < i ==> !OccursAt(text, pat, j)
  }

  /**
   * The copy loop stays within the text and the model buffer: when the
   * marker is present, a space follows 13 characters after it, and the
   * characters before that space fit the 32-byte buffer with the terminator.
   */
  predicate CopyInBounds(cmdline: string) {
    match StrStr(cmdline, MARKER)
    case None => true
    case Some(i) =>
      && i + SKIP <= |cmdline|
      && FindFrom(cmdline, " ", i + SKIP).Some?
      && FindFrom(cmdline, " ", i + SKIP).value - (i + SKIP) < MODEL_BUFFER
  }

  /**
   * `get_product_model(model)` on a command line that has been read: -1
   * with the model buffer unchanged when the marker is absent; otherwise 0
   * and the characters from 13 past the first marker up to, not including,
   * the next space.
   */
  function GetProductModel(cmdline: string, model: string): (r: (int, string))
    requires CopyInBounds(cmdline)
    ensures r.0 == -1 <==> forall i :: 0 <= i <= |cmdline| ==> !OccursAt(cmdline, MARKER, i)
    ensures r.0 == -1 ==> r.1 == model
    ensures r.0 != -1 ==> r.0 == 0 && ' ' !in r.1 && |r.1| < MODEL_BUFFER
    ensures r.0 != -1 ==> exists i: nat :: FirstOccurrence(cmdline, MARKER, i) && HasPrefixAt(cmdline, i + SKIP, r.1 + " ")
  {
    match StrStr(cmdline, MARKER)
    case None => (-1, model)
    case Some(i) =>
      var start := i + SKIP;
      var end := FindFrom(cmdline, " ", start).value;
      assert FirstOccurrence(cmdline, MARKER, i);
      UpToSpace(cmdline, start, end);
      (0, cmdline[start..end])
  }

  /**
   * A command line whose first marker is followed by '=', a token and a
   * space yields that token.
   */
  lemma MarkerThenToken(before: string, token: string, after: string)
    requires forall j :: 0 <= j < |before| ==> !OccursAt(before + MARKER, MARKER, j)
    requires ' ' !in token && |token| < MODEL_BUFFER
    ensures var cmdline := before + MARKER + "=" + token + " " + after;
            && CopyInBounds(cmdline)
            && GetProductModel(cmdline, "") == (0, token)
  {
    var cmdline := before + MARKER + "=" + token + " " + after;
    var start := |before| + SKIP;
    assert cmdline[..|before| + |MARKER|] == before + MARKER;
    FirstMarker(cmdline, before);
    assert cmdline[start..start + |token|] == token;
    assert cmdline[start + |token|] == ' ';
    TokenThenSpace(cmdline, start, token);
  }

  /** The marker occurs first right after `before`. */
  lemma FirstMarker(text: string, before: string)
    requires |before| + |MARKER| <= |text| && text[..|before| + |MARKER|] == before + MARKER
    requires forall j :: 0 <= j < |before| ==> !OccursAt(before + MARKER, MARKER, j)
    ensures StrStr(text, MARKER) == Some(|before|)
  {
    var prefix := before + MARKER;
    var i := |before|;
    var head := text[..|prefix|];
    assert head == prefix;
    assert text[i..i + |MARKER|] == head[i..];
    forall j | 0 <= j < i ensures !OccursAt(text, MARKER, j) {
      OccursAtInPrefix(text, |prefix|, MARKER, j);
    }
    FindFromIsFirst(text, MARKER, 0, i);
  }

  /** What lies between `start` and the first space after it is space-free and followed by that space. */
  lemma UpToSpace(text: string, start: nat, end: nat)
    requires start <= |text| && FindFrom(text, " ", start) == Some(end)
    ensures ' ' !in text[start..end]
    ensures HasPrefixAt(text, start, text[start..end] + " ")
  {
    forall j | start <= j < end ensures text[j] != ' ' {
      OccursCharAt(text, ' ', j);
    }
    OccursCharAt(text, ' ', end);
    assert text[start..end + 1] == text[start..end] + " ";
  }

  /** The first space at or after the start of a space-free token is the one that ends it. */
  lemma TokenThenSpace(text: string, start: nat, token: string)
    requires start + |token| < |text| && text[start..start + |token|] == token
    requires text[start + |token|] == ' ' && ' ' !in token
    ensures FindFrom(text, " ", start) == Some(start + |token|)
  {
    var end := start + |token|;
    OccursCharAt(text, ' ', end);
    forall j | start <= j < end ensures !OccursAt(text, " ", j) {
      assert text[j] == text[start..end][j - start];
      OccursCharAt(text, ' ', j);
    }
    FindFromIsFirst(text, " ", start, end);
  }
}
