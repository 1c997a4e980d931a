/** `safeDocIdFromEmail`: the document id under which a user's profile is
    stored, derived from the e-mail address. */
module DocIds {
  import opened Wrappers
  import opened JsStrings

  /** The characters the pattern `[^\w.-]` does not match (`\w` is
      `[A-Za-z0-9_]`). */
  predicate IsWordDotDash(c: char) {
    IsUpper(c) || IsLower(c) || IsDigit(c) || c == '_' || c == '.' || c == '-'
  }

  /** The alphabet of a document id: `[a-z0-9_.-]`. */
  predicate IsDocIdChar(c: char) {
    IsLower(c) || IsDigit(c) || c == '_' || c == '.' || c == '-'
  }

  predicate IsDocId(s: string) {
    forall i :: 0 <= i < |s| ==> IsDocIdChar(s[i])
  }

  /** `s.replace(/[^\w.-]/g, "_")`: every character outside the class
      becomes an underscore, the others stay. */
  function ReplaceDisallowed(s: string): string {
    seq(|s|, i requires 0 <= i < |s| => if IsWordDotDash(s[i]) then s[i] else '_')
  }

  /** `String(email || "").toLowerCase().replace(/[^\w.-]/g, "_")`; None
      stands for null and undefined, which give the empty id like `""`.
      Position by position, the id keeps the lower-cased character when it
      is a letter, a digit, `_`, `.` or `-`, and holds `_` otherwise, so it
      is made of `[a-z0-9_.-]` only. */
  function SafeDocIdFromEmail(email: Option<string>): (d: string)
    ensures var e := match email case Some(e) => e case None => "";
      |d| == |e|
      && forall i :: 0 <= i < |e| ==> d[i] == if IsWordDotDash(e[i]) then LowerChar(e[i]) else '_'
    ensures IsDocId(d)
  {
    var e := match email case Some(e) => e case None => "";
    var l := ToLower(e);
    assert forall i :: 0 <= i < |e| ==> IsWordDotDash(l[i]) == IsWordDotDash(e[i]);
    ReplaceDisallowed(l)
  }

  /** Null, undefined and the empty string all give the empty id. */
  lemma SafeDocIdOfNothing()
    ensures SafeDocIdFromEmail(None) == ""
    ensures SafeDocIdFromEmail(Some("")) == ""
  {
  }

  /** The ids are exactly the strings the sanitiser leaves unchanged. */
  lemma SafeDocIdFixedPoints(d: string)
    ensures SafeDocIdFromEmail(Some(d)) == d <==> IsDocId(d)
  {
    if IsDocId(d) {
      ToLowerFixedPoints(d);
    } else {
      var i :| 0 <= i < |d| && !IsDocIdChar(d[i]);
      assert SafeDocIdFromEmail(Some(d))[i] != d[i];
    }
  }

  /** Sanitising an id again gives the same id. */
  lemma SafeDocIdIdempotent(email: Option<string>)
    ensures SafeDocIdFromEmail(Some(SafeDocIdFromEmail(email))) == SafeDocIdFromEmail(email)
  {
    SafeDocIdFixedPoints(SafeDocIdFromEmail(email));
  }

  /** A mixed-case address: its capitals are lowered and its `@` is
      replaced. */
  lemma SafeDocIdExample()
    ensures SafeDocIdFromEmail(Some("Jane.Doe@Farm.com")) == "jane.doe_farm.com"
  {
  }
}
