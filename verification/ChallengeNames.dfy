/** The names of DNS-01 issuance: which requested name an authorization is for, where its challenge is
    observed, and what the DNS provider calls the record. */
module ChallengeNames {
  import opened Text

  const CHALLENGE := "_acme-challenge"

  predicate HasPrefix(s: string, prefix: string) {
    |prefix| <= |s| && s[..|prefix|] == prefix
  }

  function TrimPrefix(s: string, prefix: string): string {
    if HasPrefix(s, prefix) then s[|prefix|..] else s
  }

  predicate ContainsAny(s: string, chars: string) {
    exists c | c in chars :: c in s
  }

  predicate HasDoubleDot(s: string) {
    exists i | 0 <= i < |s| - 1 :: s[i] == '.' && s[i + 1] == '.'
  }

  /** A normalised name without one leading wildcard label. */
  function Base(dnsName: string): string {
    TrimPrefix(HostName(dnsName), "*.")
  }

  /** The name whose TXT values are polled. */
  function ChallengeFqdn(dnsName: string): Option<string> {
    var name := Base(dnsName);
    if name == "" || ContainsAny(name, " */\\") then None else Some(CHALLENGE + "." + name)
  }

  /** A name and its wildcard are observed under one name: the name itself below "_acme-challenge". */
  lemma WildcardSharesTheName(name: string)
    requires HostName(name) == name && name != "" && !HasPrefix(name, "*.") && !ContainsAny(name, " */\\")
    requires Trim(name) == name && !HasSuffix(name, ".")
    ensures ChallengeFqdn(name) == Some("_acme-challenge" + "." + name)
    ensures ChallengeFqdn("*." + name) == Some("_acme-challenge" + "." + name)
  {
    hide HostName, ContainsAny;
    HostOfWild(name);
    var wild := "*." + name;
    assert |wild| == |name| + 2 && wild[..2] == "*." && wild[2..] == name;
    assert Base(wild) == name && Base(name) == name;
  }

  lemma HostOfWild(name: string)
    requires HostName(name) == name && name != "" && Trim(name) == name && !HasSuffix(name, ".")
    ensures HostName("*." + name) == "*." + name
  {
    hide Trim, Lower;
    var wild := "*." + name;
    TrimWild(name);
    LowerWild(name);
    LastDot(name);
    LastDot(wild);
    assert wild[|wild| - 1] == name[|name| - 1];
  }

  lemma LowerWild(name: string)
    requires Lower(name) == name
    ensures Lower("*." + name) == "*." + name
  {
    var wild := "*." + name;
    forall i | 0 <= i < |wild|
      ensures Lower(wild)[i] == wild[i]
    {
      assert i >= 2 ==> wild[i] == name[i - 2] && Lower(name)[i - 2] == name[i - 2];
    }
  }

  lemma TrimWild(name: string)
    requires Trim(name) == name && name != ""
    ensures Trim("*." + name) == "*." + name
  {
    var wild := "*." + name;
    var left, right := TrimMeans(name);
    assert !IsSpace(name[|name| - 1]);
    assert wild[|wild| - 1] == name[|name| - 1] && wild[0] == '*';
    assert TrimLeft(wild) == wild && TrimRight(wild) == wild;
  }

  // ---- the provider's names ----

  predicate LabelOk(part: string) {
    && 0 < |part| <= 63
    && part[0] != '-' && part[|part| - 1] != '-'
    && forall c | c in part :: 'a' <= c <= 'z' || '0' <= c <= '9' || c == '-'
  }

  function NormalizeZone(value: string): Option<string> {
    var zone := HostName(value);
    if zone == "" || ContainsAny(zone, " */\\") || '.' !in zone then None
    else if forall part | part in Split(zone, '.') :: LabelOk(part) then Some(zone)
    else None
  }

  /** Up to 63 small letters, digits and inner hyphens. */
  lemma LabelMeans(part: string)
    ensures LabelOk(part) <==>
      && 1 <= |part| && |part| <= 63 && part[0] != '-' && part[|part| - 1] != '-'
      && forall c | c in part :: c in "abcdefghijklmnopqrstuvwxyz0123456789-"
  {
    LabelChars();
  }

  /** A zone is a host name of two or more labels. */
  lemma ZoneMeans(value: string, zone: string)
    ensures NormalizeZone(value) == Some(zone) <==>
      zone == HostName(value) && '.' in zone && forall part | part in Split(zone, '.') :: LabelOk(part)
  {
    var name := HostName(value);
    hide LabelOk, HostName, Split;
    if '.' in name && forall part | part in Split(name, '.') :: LabelOk(part) {
      forall c | c in " */\\"
        ensures c !in name
      {
        if c in name {
          SplitCovers(name, '.', c);
          var part :| part in Split(name, '.') && c in part;
          NotInALabel(part, c);
        }
      }
    }
  }

  lemma NotInALabel(part: string, c: char)
    requires c in part && LabelOk(part)
    ensures c !in " */\\"
  {
  }

  lemma LabelChars()
    ensures forall c: char :: ('a' <= c <= 'z' || '0' <= c <= '9' || c == '-') <==> c in "abcdefghijklmnopqrstuvwxyz0123456789-"
  {
    var chars := "abcdefghijklmnopqrstuvwxyz0123456789-";
    assert forall k | 0 <= k < 37 :: chars[k] as int == if k < 26 then 97 + k else if k < 36 then 22 + k else 45;
    forall c: char
      ensures ('a' <= c <= 'z' || '0' <= c <= '9' || c == '-') <==> c in chars
    {
      if 'a' <= c <= 'z' {
        assert chars[c as int - 97] == c;
      } else if '0' <= c <= '9' {
        assert chars[c as int - 22] == c;
      } else if c == '-' {
        assert chars[36] == c;
      }
    }
  }

  lemma {:induction false} SplitCovers(s: string, separator: char, c: char)
    requires c in s && c != separator
    ensures exists part :: part in Split(s, separator) && c in part
    decreases |s|
  {
    SplitFirst(s, separator);
    if separator in s {
      BeforeShorter(s, separator);
      var n := |Before(s, separator)|;
      var rest := s[n + 1..];
      assert s == s[..n] + [separator] + rest;
      if c in rest {
        SplitCovers(rest, separator, c);
        var part :| part in Split(rest, separator) && c in part;
        assert part in Split(s, separator);
      } else {
        assert Split(s, separator)[0] == Before(s, separator) && c in Before(s, separator);
      }
    } else {
      assert s in Split(s, separator);
    }
  }

  predicate ValidChallengeName(name: string) {
    name == CHALLENGE
    || (HasPrefix(name, CHALLENGE + ".")
        && var suffix := TrimPrefix(name, CHALLENGE + ".");
           suffix != "" && !ContainsAny(suffix, " */\\") && !HasDoubleDot(suffix))
  }

  /** A name's place below `zone`: `Some("")` for the zone itself. */
  function Relative(name: string, zone: string): Option<string> {
    if name == zone then Some("")
    else if HasSuffix(name, "." + zone) then Some(TrimSuffix(name, "." + zone))
    else None
  }

  function RecordName(dnsName: string, zone: string): Option<string> {
    var name := Base(dnsName);
    if name == "" || '*' in name then None
    else
      match Relative(name, zone)
      case None => None
      case Some(relative) =>
        var record := if relative == "" then CHALLENGE else CHALLENGE + "." + relative;
        if ValidChallengeName(record) then Some(record) else None
  }

  lemma RelativeMeans(name: string, zone: string, relative: string)
    ensures Relative(name, zone) == Some(relative) <==>
      (name == zone && relative == "") || (name != zone && name == relative + ("." + zone))
  {
    if HasSuffix(name, "." + zone) {
      SuffixJoins(name, "." + zone);
    }
    if name == relative + ("." + zone) {
      assert name[|name| - |"." + zone|..] == "." + zone;
      assert TrimSuffix(name, "." + zone) == relative;
    }
  }

  lemma ValidBelow(relative: string)
    requires relative != ""
    ensures ValidChallengeName("_acme-challenge" + "." + relative) <==>
      && (forall c | c in " */\\" :: c !in relative)
      && forall i | 0 <= i < |relative| - 1 :: relative[i] != '.' || relative[i + 1] != '.'
  {
    var name := CHALLENGE + "." + relative;
    assert |name| > |CHALLENGE|;
    assert name[..|CHALLENGE + "."|] == CHALLENGE + "." && name[|CHALLENGE + "."|..] == relative;
  }

  /** A name is provided for exactly when it is the zone, or a name below it (nothing before the dot included)
      without blanks, stars, slashes or doubled dots; its record is "_acme-challenge" below what it is below
      the zone. */
  lemma RecordNameMeans(dnsName: string, zone: string, record: string)
    ensures RecordName(dnsName, zone) == Some(record) <==>
      && Base(dnsName) != "" && '*' !in Base(dnsName)
      && exists relative :: Relative(Base(dnsName), zone) == Some(relative) && RecordFor(relative, record)
  {
    hide ValidChallengeName, Base, Relative;
    if Relative(Base(dnsName), zone).Some? {
      var relative := Relative(Base(dnsName), zone).value;
      assert CHALLENGE + "." + relative == "_acme-challenge" + "." + relative;
      if relative != "" {
        ValidBelow(relative);
      } else {
        ZoneRecordIsValid();
      }
    }
  }

  lemma ZoneRecordIsValid()
    ensures ValidChallengeName("_acme-challenge")
  {
  }

  ghost predicate RecordFor(relative: string, record: string) {
    || (relative == "" && record == "_acme-challenge")
    || (relative != "" && record == "_acme-challenge" + "." + relative
        && (forall c | c in " */\\" :: c !in relative)
        && forall i | 0 <= i < |relative| - 1 :: relative[i] != '.' || relative[i + 1] != '.')
  }

  /** The record the provider creates is the one whose propagation is polled, and polling is never refused
      for a name the provider has accepted, except for the zone's own name with a dot before it. */
  lemma PresentedWhereObservedExactly(dnsName: string, value: string, zone: string)
    requires NormalizeZone(value) == Some(zone) && RecordName(dnsName, zone).Some?
    ensures ChallengeFqdn(dnsName) == Some(RecordName(dnsName, zone).value + "." + zone) <==> Base(dnsName) != "." + zone
    ensures ChallengeFqdn(dnsName).Some?
  {
    var name := Base(dnsName);
    assert !ContainsAny(zone, " */\\");
    if name == zone {
      assert CHALLENGE + "." + zone == CHALLENGE + "." + name;
    } else {
      SuffixJoins(name, "." + zone);
      BelowTheZone(name, Relative(name, zone).value, zone);
    }
  }

  lemma BelowTheZone(name: string, relative: string, zone: string)
    requires name == relative + ("." + zone) && !ContainsAny(zone, " */\\")
    requires relative != "" ==> ValidChallengeName(CHALLENGE + "." + relative)
    ensures !ContainsAny(name, " */\\")
    ensures relative == "" ==> CHALLENGE + "." + name != CHALLENGE + "." + zone
    ensures relative != "" ==> CHALLENGE + "." + relative + "." + zone == CHALLENGE + "." + name && name != "." + zone
  {
    assert name == relative + "." + zone;
    if relative == "" {
      assert !ContainsAny("", " */\\");
      NoneOf("", zone);
      assert |CHALLENGE + "." + name| != |CHALLENGE + "." + zone|;
    } else {
      assert (CHALLENGE + "." + relative)[|CHALLENGE| + 1..] == relative;
      NoneOf(relative, zone);
      assert |name| != |"." + zone|;
    }
  }

  lemma SmallZone()
    ensures NormalizeZone("e.x") == Some("e.x")
  {
    var zone := "e.x";
    assert Trim(zone) == zone;
    assert TrimSuffix(zone, ".") == zone;
    assert Lower(zone) == zone;
    assert HostName(zone) == zone;
    assert !ContainsAny(zone, " */\\");
    SmallZoneParts();
    assert LabelOk("e") && LabelOk("x");
  }

  lemma SmallZoneParts()
    ensures Split("e.x", '.') == ["e", "x"]
  {
    var zone := "e.x";
    assert zone[1..] == ".x" && Before(".x", '.') == "";
    assert Before(zone, '.') == "e";
    assert zone[1] == '.' && zone[2..] == "x";
    assert Split("x", '.') == ["x"];
  }

  lemma DottedZoneBase()
    ensures Base(".e.x") == ".e.x"
  {
    var name := ".e.x";
    assert Trim(name) == name;
    assert TrimSuffix(name, ".") == name;
    assert Lower(name) == name;
  }

  lemma DottedZoneIsObservedElsewhere()
    ensures NormalizeZone("e.x") == Some("e.x")
    ensures RecordName(".e.x", "e.x") == Some("_acme-challenge")
    ensures ChallengeFqdn(".e.x") == Some("_acme-challenge" + "." + ".e.x")
  {
    SmallZone();
    DottedZoneBase();
    assert "." + "e.x" == ".e.x";
    assert Relative(".e.x", "e.x") == Some("");
    assert !ContainsAny(".e.x", " */\\");
  }

  /** Two names share a record only if they are the same name up to case, one trailing dot and one wildcard
      label, or one of them is the dotted zone. */
  lemma OneRecordPerName(a: string, b: string, value: string, zone: string)
    requires NormalizeZone(value) == Some(zone) && RecordName(a, zone).Some? && RecordName(a, zone) == RecordName(b, zone)
    requires Base(a) != "." + zone && Base(b) != "." + zone
    ensures Base(a) == Base(b)
  {
    PresentedWhereObservedExactly(a, value, zone);
    PresentedWhereObservedExactly(b, value, zone);
    assert (CHALLENGE + "." + Base(a))[|CHALLENGE| + 1..] == Base(a);
    assert (CHALLENGE + "." + Base(b))[|CHALLENGE| + 1..] == Base(b);
  }

  lemma SuffixJoins(s: string, suffix: string)
    requires HasSuffix(s, suffix)
    ensures s == TrimSuffix(s, suffix) + suffix
  {
  }

  lemma NoneOf(a: string, b: string)
    requires !ContainsAny(a, " */\\") && !ContainsAny(b, " */\\")
    ensures !ContainsAny(a + "." + b, " */\\")
  {
    forall c | c in " */\\"
      ensures c !in a + "." + b
    {
      assert c !in a && c !in b;
    }
  }
}
