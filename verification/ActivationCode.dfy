/** The text form of an activation code (lpa/download.go; SGP.22 section 4.1). */
module ActivationText {
  import opened Bytes

  /** `smdp` is the host of the SM-DP+ address, if there is one. */
  datatype ActivationCode = ActivationCode(
    smdp: Option<string>, matchingID: string, imei: string, oid: string, confirmation: string)

  /** What follows the matching ID: the OID and the confirmation flag, which needs the place of the OID even if empty. */
  function AfterMatchingID(ac: ActivationCode): string {
    if ac.oid == "" && ac.confirmation == "" then "" else "$" + OidAndFlag(ac)
  }

  function OidAndFlag(ac: ActivationCode): string {
    if ac.confirmation == "" then ac.oid else ac.oid + "$" + "1"
  }

  /** `MarshalText`; `None` without an SM-DP+. */
  function Text(ac: ActivationCode): Option<string> {
    if ac.smdp.None? then None
    else Some("LPA:1" + "$" + (ac.smdp.value + "$" + (ac.matchingID + AfterMatchingID(ac))))
  }

  /** `strings.Split(s, "$")`. */
  function Split(s: string): (parts: seq<string>)
    ensures |parts| > 0
  {
    if s == "" then [""]
    else if s[0] == '$' then [""] + Split(s[1..])
    else
      var rest := Split(s[1..]);
      [[s[0]] + rest[0]] + rest[1..]
  }

  lemma {:induction false} SplitAtSign(a: string, rest: string)
    requires '$' !in a
    ensures Split(a + "$" + rest) == [a] + Split(rest)
    ensures Split(a) == [a]
  {
    var s := a + "$" + rest;
    if a == "" {
      assert s[1..] == rest;
    } else {
      assert s[1..] == a[1..] + "$" + rest;
      SplitAtSign(a[1..], rest);
      assert [a[0]] + a[1..] == a;
      assert ([a[1..]] + Split(rest))[1..] == Split(rest) && [a[1..]][1..] == [];
      assert [a] + [] == [a];
    }
  }

  /** No part of a split holds the separator. */
  lemma {:induction false} PartsAreClean(s: string)
    ensures forall p :: p in Split(s) ==> '$' !in p
  {
    if s != "" {
      PartsAreClean(s[1..]);
      assert Split(s[1..])[0] in Split(s[1..]);
    }
  }

  /** The outcome of `UnmarshalText` into `into`, `parse` standing for the URL parser: success, and what is left in it. */
  function Untext(text: string, into: ActivationCode, parse: string -> Option<string>): (bool, ActivationCode) {
    var parts := Split(text);
    if !("LPA:1" <= text) || |parts| < 2 then (false, into)
    else if parse(parts[1]).None? then (false, into.(smdp := None))
    else
      var ac := into.(smdp := parse(parts[1]));
      (true, ac.(matchingID := if |parts| > 2 then parts[2] else ac.matchingID,
                 oid := if |parts| > 3 then parts[3] else ac.oid))
  }

  lemma TextParts(ac: ActivationCode)
    requires ac.smdp.Some? && '$' !in ac.smdp.value
    ensures Split(Text(ac).value) == ["LPA:1", ac.smdp.value] + Split(ac.matchingID + AfterMatchingID(ac))
  {
    hide Split, AfterMatchingID;
    var tail := ac.matchingID + AfterMatchingID(ac);
    SplitAtSign("LPA:1", ac.smdp.value + "$" + tail);
    SplitAtSign(ac.smdp.value, tail);
    assert ["LPA:1"] + ([ac.smdp.value] + Split(tail)) == ["LPA:1", ac.smdp.value] + Split(tail);
  }

  lemma MatchingIDParts(ac: ActivationCode)
    requires '$' !in ac.matchingID
    ensures Split(ac.matchingID + AfterMatchingID(ac)) ==
            [ac.matchingID] + if ac.oid == "" && ac.confirmation == "" then [] else Split(OidAndFlag(ac))
  {
    hide Split, OidAndFlag;
    if ac.oid == "" && ac.confirmation == "" {
      assert ac.matchingID + "" == ac.matchingID;
      SplitAtSign(ac.matchingID, "");
    } else {
      assert ac.matchingID + ("$" + OidAndFlag(ac)) == ac.matchingID + "$" + OidAndFlag(ac);
      SplitAtSign(ac.matchingID, OidAndFlag(ac));
    }
  }

  lemma OidParts(ac: ActivationCode)
    ensures Split(OidAndFlag(ac))[0] == ac.oid <==> '$' !in ac.oid
  {
    hide Split;
    if '$' in ac.oid {
      PartsAreClean(OidAndFlag(ac));
      assert Split(OidAndFlag(ac))[0] in Split(OidAndFlag(ac));
    } else {
      SplitAtSign(ac.oid, "1");
    }
  }

  /**
   * Reading back the text of a code whose host holds no separator restores matching ID and OID if and only if neither
   * holds a separator and the OID is not hidden: with neither OID nor confirmation flag in the text, whatever OID the
   * destination had stays. The IMEI and the confirmation code of the destination always stay.
   */
  lemma TextRoundTrip(ac: ActivationCode, into: ActivationCode, parse: string -> Option<string>)
    requires ac.smdp.Some? && '$' !in ac.smdp.value && parse(ac.smdp.value) == ac.smdp
    ensures var (ok, back) := Untext(Text(ac).value, into, parse);
            && ok
            && back.smdp == ac.smdp && back.imei == into.imei && back.confirmation == into.confirmation
            && (back.matchingID == ac.matchingID && back.oid == ac.oid <==>
                  && '$' !in ac.matchingID && '$' !in ac.oid
                  && (ac.oid != "" || ac.confirmation != "" || into.oid == ""))
  {
    hide Split, AfterMatchingID, OidAndFlag;
    var parts := Split(Text(ac).value);
    TextParts(ac);
    assert "LPA:1" <= Text(ac).value;
    assert parts[2] == Split(ac.matchingID + AfterMatchingID(ac))[0];
    if '$' in ac.matchingID {
      PartsAreClean(Text(ac).value);
      assert parts[2] in parts;
    } else {
      MatchingIDParts(ac);
      OidParts(ac);
      assert parts[2] == ac.matchingID;
      if ac.oid != "" || ac.confirmation != "" {
        assert parts[3] == Split(OidAndFlag(ac))[0];
      }
    }
  }

  /** The parts of the text: the last one is 1 if there is a confirmation code, and then the OID has its place before it. */
  lemma TextInParts(ac: ActivationCode)
    requires ac.smdp.Some? && '$' !in ac.smdp.value && '$' !in ac.matchingID && '$' !in ac.oid
    ensures Split(Text(ac).value) ==
            ["LPA:1", ac.smdp.value, ac.matchingID]
            + if ac.confirmation != "" then [ac.oid, "1"] else if ac.oid != "" then [ac.oid] else []
  {
    hide Split, AfterMatchingID, Text;
    TextParts(ac);
    MatchingIDParts(ac);
    SplitAtSign(ac.oid, "1");
    SplitAtSign("1", "");
    assert [ac.oid] + ["1"] == [ac.oid, "1"];
  }

  /**
   * A text with no separator but those shown is read: anything may stand between the prefix and the first separator, the
   * host goes to the URL parser, matching ID and OID are the third and fourth part, and further parts are ignored.
   */
  lemma TextAccepted(version: string, host: string, matchingID: string, oid: string, more: string, into: ActivationCode,
                     parse: string -> Option<string>)
    requires '$' !in version && '$' !in host && '$' !in matchingID && '$' !in oid && parse(host).Some?
    ensures Untext("LPA:1" + version + "$" + (host + "$" + (matchingID + "$" + (oid + "$" + more))), into, parse) ==
            (true, into.(smdp := parse(host), matchingID := matchingID, oid := oid))
    ensures Untext("LPA:1" + version + "$" + (host + "$" + matchingID), into, parse) ==
            (true, into.(smdp := parse(host), matchingID := matchingID))
    ensures Untext("LPA:1" + version + "$" + host, into, parse) == (true, into.(smdp := parse(host)))
  {
    hide Split;
    var prefix := "LPA:1" + version;
    var tail := oid + "$" + more;
    SplitAtSign(oid, more);
    SplitAtSign(matchingID, tail);
    SplitAtSign(host, matchingID + "$" + tail);
    SplitAtSign(host, matchingID);
    SplitAtSign(prefix, host + "$" + (matchingID + "$" + tail));
    SplitAtSign(prefix, host + "$" + matchingID);
    SplitAtSign(prefix, host);
  }

  /**
   * A text is refused, and then nothing is changed, without the prefix or without a separator; and it is refused, and the
   * SM-DP+ is lost, if the URL parser refuses the second part.
   */
  lemma TextRefused(text: string, into: ActivationCode, parse: string -> Option<string>)
    ensures !("LPA:1" <= text) || '$' !in text ==> Untext(text, into, parse) == (false, into)
    ensures "LPA:1" <= text && '$' in text ==>
              && |Split(text)| >= 2
              && (parse(Split(text)[1]).None? <==> !Untext(text, into, parse).0)
              && (parse(Split(text)[1]).None? ==> Untext(text, into, parse) == (false, into.(smdp := None)))
  {
    hide Split;
    if '$' in text {
      var i := FirstSeparator(text);
      assert text == text[..i] + "$" + text[i + 1..];
      SplitAtSign(text[..i], text[i + 1..]);
    } else {
      SplitAtSign(text, "");
    }
  }

  lemma {:induction false} FirstSeparator(text: string) returns (i: nat)
    requires '$' in text
    ensures i < |text| && text[i] == '$' && '$' !in text[..i]
  {
    if text[0] == '$' {
      i := 0;
    } else {
      var j := FirstSeparator(text[1..]);
      i := j + 1;
      assert text[..i] == [text[0]] + text[1..][..j];
    }
  }

  /** `MarshalText`. */
  method MarshalText(ac: ActivationCode) returns (text: Option<string>)
    ensures text == Text(ac)
  {
    if ac.smdp.None? {
      return None;
    }
    var b := "LPA:1$";
    b := b + ac.smdp.value + "$";
    ghost var start := b;
    if ac.matchingID != "" {
      b := b + ac.matchingID;
    }
    if ac.oid != "" {
      b := b + "$" + ac.oid;
    }
    assert b == start + ac.matchingID + (if ac.oid == "" then "" else "$" + ac.oid);
    if ac.confirmation != "" {
      if ac.oid == "" {
        b := b + "$";
      }
      b := b + "$" + "1";
    }
    assert b == start + ac.matchingID + AfterMatchingID(ac);
    TextPieces(ac);
    text := Some(b);
  }

  lemma TextPieces(ac: ActivationCode)
    requires ac.smdp.Some?
    ensures Text(ac).value == "LPA:1$" + ac.smdp.value + "$" + ac.matchingID + AfterMatchingID(ac)
  {
    hide AfterMatchingID;
    var host, tail := ac.smdp.value, ac.matchingID + AfterMatchingID(ac);
    assert "LPA:1$" == "LPA:1" + "$";
    assert "LPA:1$" + host + "$" + ac.matchingID + AfterMatchingID(ac) == "LPA:1" + "$" + (host + "$" + tail);
  }
}
