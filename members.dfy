/** Per-member extraction and the rule-based signup-channel classifier. */
module Members {
  import opened Wrappers
  import opened Text
  import opened Dates

  datatype EmailAddress = EmailAddress(address: string, primary: bool)

  /** `locality` and `region` are keys a postal address may lack. */
  datatype PostalAddress = PostalAddress(
    locality: Option<string>,
    region: Option<string>,
    postalCode: string,
    primary: bool)

  /** A raw member record of the backup. `customFields` is None when the record has no
      custom fields at all; `submissionsHref` is the link to its submission history. */
  datatype Member = Member(
    emailAddresses: seq<EmailAddress>,
    postalAddresses: seq<PostalAddress>,
    customFields: Option<map<string, string>>,
    createdDate: string,
    submissionsHref: string)

  datatype Referrer = Referrer(source: Option<string>)

  /** One entry of a member's submission history; `referrerData` is a key it may lack. */
  datatype Submission = Submission(formId: string, referrerData: Option<Referrer>)

  /** What `extract_data` keeps of a member. */
  datatype ExtractedRecord = ExtractedRecord(
    localGroup: Option<string>,
    signUpDate: string,
    signUpForm: Option<string>,
    signUpWebsite: Option<string>)

  /** The closed set of channel labels. */
  datatype Channel = NVDA | Volunteer | Website | HfXTalk | Other

  /** The label as it appears in the exported table. */
  function ChannelName(c: Channel): (name: string)
    ensures name in ["NVDA", "Volunteer", "Website", "HfX Talk", "Other"]
  {
    match c
    case NVDA => "NVDA"
    case Volunteer => "Volunteer"
    case Website => "Website"
    case HfXTalk => "HfX Talk"
    case Other => "Other"
  }

  // ---------------------------------------------------------------------------
  // First-match searches over a member's addresses

  /** `k` is the first position of `s` that satisfies `p`. */
  ghost predicate IsFirst<T>(s: seq<T>, p: T -> bool, k: nat)
  {
    k < |s| && p(s[k]) && forall j :: 0 <= j < k ==> !p(s[j])
  }

  /** The first position of `s` that satisfies `p`, if any. */
  function FirstIndex<T>(s: seq<T>, p: T -> bool): (r: Option<nat>)
    ensures r.None? <==> forall i :: 0 <= i < |s| ==> !p(s[i])
    ensures r.Some? ==> IsFirst(s, p, r.value)
    decreases |s|
  {
    if |s| == 0 then None
    else if p(s[0]) then Some(0)
    else
      match FirstIndex(s[1..], p)
      case None => None
      case Some(k) => Some(k + 1)
  }

  /** The contract of `FirstIndex` pins it down: the first match is unique. */
  lemma FirstIndexIs<T>(s: seq<T>, p: T -> bool, k: nat)
    requires IsFirst(s, p, k)
    ensures FirstIndex(s, p) == Some(k)
  {
  }

  predicate IsPrimaryEmail(e: EmailAddress) { e.primary }

  predicate IsPrimaryAddress(a: PostalAddress) { a.primary }

  /** The address of the first email entry flagged primary; None when none is. */
  function PrimaryEmail(emails: seq<EmailAddress>): (r: Option<string>)
    ensures r.None? <==> forall i :: 0 <= i < |emails| ==> !emails[i].primary
    ensures r.Some? ==> exists k: nat :: IsFirst(emails, IsPrimaryEmail, k) && r.value == emails[k].address
  {
    match FirstIndex(emails, IsPrimaryEmail)
    case None => None
    case Some(k) => Some(emails[k].address)
  }

  /** The first postal address flagged primary; None when none is. */
  function PrimaryAddress(addresses: seq<PostalAddress>): (r: Option<PostalAddress>)
    ensures r.None? <==> forall i :: 0 <= i < |addresses| ==> !addresses[i].primary
    ensures r.Some? ==> exists k: nat :: IsFirst(addresses, IsPrimaryAddress, k) && r.value == addresses[k]
  {
    match FirstIndex(addresses, IsPrimaryAddress)
    case None => None
    case Some(k) => Some(addresses[k])
  }

  /** The locality of the first primary address, else its region, else None. */
  function PrimaryLocality(addresses: seq<PostalAddress>): (r: Option<string>)
    ensures (forall i :: 0 <= i < |addresses| ==> !addresses[i].primary) ==> r.None?
    ensures r.Some? ==> exists k: nat :: (IsFirst(addresses, IsPrimaryAddress, k) &&
      if addresses[k].locality.Some? then r == addresses[k].locality else r == addresses[k].region)
    ensures forall k: nat :: IsFirst(addresses, IsPrimaryAddress, k) ==>
      r == if addresses[k].locality.Some? then addresses[k].locality else addresses[k].region
  {
    match PrimaryAddress(addresses)
    case None => None
    case Some(a) => if a.locality.Some? then a.locality else a.region
  }

  /** The postal code of the first primary address, or None without one. */
  function PrimaryPostalCode(addresses: seq<PostalAddress>): (r: Option<string>)
    ensures r.None? <==> forall i :: 0 <= i < |addresses| ==> !addresses[i].primary
    ensures r.Some? ==> exists k: nat :: IsFirst(addresses, IsPrimaryAddress, k) && r.value == addresses[k].postalCode
  {
    match PrimaryAddress(addresses)
    case None => None
    case Some(a) => Some(a.postalCode)
  }

  /** Scans the member's email entries and returns at the first primary one. */
  method ExtractPrimaryEmail(member: Member) returns (r: Option<string>)
    ensures r == PrimaryEmail(member.emailAddresses)
  {
    var emails := member.emailAddresses;
    for i := 0 to |emails|
      invariant forall j :: 0 <= j < i ==> !emails[j].primary
    {
      if emails[i].primary {
        FirstIndexIs(emails, IsPrimaryEmail, i);
        return Some(emails[i].address);
      }
    }
    return None;
  }

  /** Scans the member's postal addresses; the first primary one decides the answer. */
  method ExtractPrimaryLocality(member: Member) returns (r: Option<string>)
    ensures r == PrimaryLocality(member.postalAddresses)
  {
    var addresses := member.postalAddresses;
    for i := 0 to |addresses|
      invariant forall j :: 0 <= j < i ==> !addresses[j].primary
    {
      var address := addresses[i];
      if address.primary {
        FirstIndexIs(addresses, IsPrimaryAddress, i);
        if address.locality.Some? {
          return address.locality;
        } else if address.region.Some? {
          return address.region;
        } else {
          return None;
        }
      }
    }
    return None;
  }

  /** Scans the member's postal addresses and returns the first primary one's postal code. */
  method ExtractPrimaryPostalCode(member: Member) returns (r: Option<string>)
    ensures r == PrimaryPostalCode(member.postalAddresses)
  {
    var addresses := member.postalAddresses;
    for i := 0 to |addresses|
      invariant forall j :: 0 <= j < i ==> !addresses[j].primary
    {
      if addresses[i].primary {
        FirstIndexIs(addresses, IsPrimaryAddress, i);
        return Some(addresses[i].postalCode);
      }
    }
    return None;
  }

  /** Only the first primary address is consulted: whatever follows it, including
      further primary addresses, changes neither the locality nor the postal code. */
  lemma LaterAddressesIgnored(addresses: seq<PostalAddress>, more: seq<PostalAddress>)
    requires exists i :: 0 <= i < |addresses| && addresses[i].primary
    ensures PrimaryLocality(addresses + more) == PrimaryLocality(addresses)
    ensures PrimaryPostalCode(addresses + more) == PrimaryPostalCode(addresses)
  {
    var k := FirstIndex(addresses, IsPrimaryAddress).value;
    assert IsFirst(addresses + more, IsPrimaryAddress, k);
    FirstIndexIs(addresses + more, IsPrimaryAddress, k);
  }

  // ---------------------------------------------------------------------------
  // Submission history and record normalisation

  /** The form and referrer source of the first submission; (None, None) for an empty history. */
  function ExtractSignupForm(submissions: seq<Submission>): (r: (Option<string>, Option<string>))
    ensures r.0.None? <==> |submissions| == 0
    ensures r.1.Some? ==> r.0.Some?
    ensures |submissions| > 0 ==>
      r.0 == Some(submissions[0].formId) &&
      r.1 == (if submissions[0].referrerData.Some? then submissions[0].referrerData.value.source else None)
  {
    if |submissions| < 1 then (None, None)
    else
      var signup := submissions[0];
      match signup.referrerData
      case Some(referrer) => (Some(signup.formId), referrer.source)
      case None => (Some(signup.formId), None)
  }

  /** Only the first submission matters: later ones never change the answer. */
  lemma SignupFormIgnoresLaterSubmissions(first: Submission, later: seq<Submission>)
    ensures ExtractSignupForm([first] + later) == ExtractSignupForm([first])
  {
  }

  const NOT_SELECTED := "Not selected"
  const NO_GROUP_NEARBY := "No group nearby"

  /** `custom_fields.local_group`, with a missing key and both sentinels read as "no group". */
  function LocalGroup(customFields: Option<map<string, string>>): (g: Option<string>)
    ensures g.None? <==>
      customFields.None? || "local_group" !in customFields.value ||
      customFields.value["local_group"] == NOT_SELECTED ||
      customFields.value["local_group"] == NO_GROUP_NEARBY
    ensures g.Some? ==>
      (customFields.Some? && "local_group" in customFields.value &&
       g.value == customFields.value["local_group"])
  {
    var raw := if customFields.Some? && "local_group" in customFields.value
               then Some(customFields.value["local_group"]) else None;
    if raw == Some(NOT_SELECTED) || raw == Some(NO_GROUP_NEARBY) then None else raw
  }

  /** `created_date.split('T')[0]`. */
  function DatePart(createdDate: string): (d: string)
    ensures d <= createdDate && 'T' !in d
    ensures 'T' !in createdDate ==> d == createdDate
    ensures 'T' in createdDate ==> |d| < |createdDate| && createdDate[|d|] == 'T'
  {
    FirstPiece(createdDate, 'T');
    Split(createdDate, 'T')[0]
  }

  /** The normalised record of a member whose submission history is `submissions`. */
  function ExtractData(member: Member, submissions: seq<Submission>): (r: ExtractedRecord)
    ensures r.localGroup.Some? ==>
      r.localGroup.value != NOT_SELECTED && r.localGroup.value != NO_GROUP_NEARBY
    ensures r.signUpDate <= member.createdDate && 'T' !in r.signUpDate
    ensures r.signUpForm.None? <==> |submissions| == 0
  {
    var (form, website) := ExtractSignupForm(submissions);
    ExtractedRecord(LocalGroup(member.customFields), DatePart(member.createdDate), form, website)
  }

  // ---------------------------------------------------------------------------
  // Form names and the channel classifier

  /** The form's human name, or the literal "Other" when the form is unknown. The result
      is "Other" exactly when the form is unknown or is itself named "Other". */
  function MapSignupForm(signUpForm: Option<string>, formMapping: map<string, string>): (name: string)
    ensures signUpForm.Some? && signUpForm.value in formMapping ==> name == formMapping[signUpForm.value]
    ensures name == "Other" <==>
      signUpForm.None? || signUpForm.value !in formMapping || formMapping[signUpForm.value] == "Other"
  {
    if signUpForm.None? || signUpForm.value !in formMapping then "Other"
    else formMapping[signUpForm.value]
  }

  /** A referrer counts as a website unless it is missing or the literal "none". */
  function HasWebsite(signUpWebsite: Option<string>): (b: bool)
    ensures !b <==> signUpWebsite == None || signUpWebsite == Some("none")
  {
    !(signUpWebsite == Some("none") || signUpWebsite.None?)
  }

  /** The ordered rules: NVDA, then Volunteer, then Join (Website only with a referrer
      before the cutoff), then Website, else Other. */
  function Classify(formName: string, hasWebsite: bool, signUpDate: Date): (c: Channel)
    ensures c == NVDA <==> Contains(formName, "NVDA")
    ensures c == Volunteer <==> !Contains(formName, "NVDA") && Contains(formName, "Volunteer")
    ensures c == HfXTalk <==>
      !Contains(formName, "NVDA") && !Contains(formName, "Volunteer") && Contains(formName, "Join") &&
      !(hasWebsite && Before(signUpDate, WEBSITE_JOIN_CUTOFF))
    ensures c == Website <==>
      !Contains(formName, "NVDA") && !Contains(formName, "Volunteer") &&
      ((Contains(formName, "Join") && hasWebsite && Before(signUpDate, WEBSITE_JOIN_CUTOFF)) ||
       (!Contains(formName, "Join") && Contains(formName, "Website")))
    ensures c == Other <==>
      !Contains(formName, "NVDA") && !Contains(formName, "Volunteer") &&
      !Contains(formName, "Join") && !Contains(formName, "Website")
  {
    if Contains(formName, "NVDA") then NVDA
    else if Contains(formName, "Volunteer") then Volunteer
    else if Contains(formName, "Join") then
      if hasWebsite && Before(signUpDate, WEBSITE_JOIN_CUTOFF) then Website else HfXTalk
    else if Contains(formName, "Website") then Website
    else Other
  }

  /** The fallback form name "Other" holds none of the trigger words, so it lands in `Other`. */
  lemma {:induction false} OtherFormIsOtherChannel(hasWebsite: bool, signUpDate: Date)
    ensures Classify("Other", hasWebsite, signUpDate) == Other
  {
    var name := "Other";
    assert 'N' !in name && 'V' !in name && 'J' !in name && 'W' !in name;
    LacksFirstChar(name, "NVDA");
    LacksFirstChar(name, "Volunteer");
    LacksFirstChar(name, "Join");
    LacksFirstChar(name, "Website");
  }

  /** An unknown form always ends up in the `Other` channel. */
  lemma UnknownFormIsOtherChannel(signUpForm: Option<string>, formMapping: map<string, string>,
                                  hasWebsite: bool, signUpDate: Date)
    requires signUpForm.None? || signUpForm.value !in formMapping
    ensures Classify(MapSignupForm(signUpForm, formMapping), hasWebsite, signUpDate) == Other
  {
    OtherFormIsOtherChannel(hasWebsite, signUpDate);
  }

  /** Rule order: a name that matches every rule is classified by the first. */
  lemma ClassifyFirstRuleWins()
    ensures Classify("NVDA Volunteer Join", false, Date(2019, 1, 1)) == NVDA
  {
    assert "NVDA" <= "NVDA Volunteer Join";
  }

  /** A Join form name matching neither earlier rule: with a website referrer it is
      `Website` strictly before the cutoff and `HfX Talk` from the cutoff on; without one
      it is always `HfX Talk`. */
  lemma ClassifyJoinCutoff(formName: string, hasWebsite: bool, signUpDate: Date)
    requires Contains(formName, "Join") && !Contains(formName, "NVDA") && !Contains(formName, "Volunteer")
    ensures Classify(formName, hasWebsite, signUpDate) ==
      if hasWebsite && Before(signUpDate, WEBSITE_JOIN_CUTOFF) then Website else HfXTalk
    ensures Classify(formName, true, WEBSITE_JOIN_CUTOFF) == HfXTalk
  {
  }

  /** For such a Join form, the referrer decides: a missing referrer or the literal "none"
      gives `HfX Talk` on every date; any other referrer gives `Website` exactly strictly
      before the cutoff. */
  lemma JoinChannelByReferrer(formName: string, signUpWebsite: Option<string>, signUpDate: Date)
    requires Contains(formName, "Join") && !Contains(formName, "NVDA") && !Contains(formName, "Volunteer")
    ensures signUpWebsite.None? || signUpWebsite == Some("none") ==>
      Classify(formName, HasWebsite(signUpWebsite), signUpDate) == HfXTalk
    ensures signUpWebsite.Some? && signUpWebsite != Some("none") ==>
      (Classify(formName, HasWebsite(signUpWebsite), signUpDate) == Website <==>
       Before(signUpDate, WEBSITE_JOIN_CUTOFF))
  {
    ClassifyJoinCutoff(formName, HasWebsite(signUpWebsite), signUpDate);
  }

  /** Distinct channels are written under distinct labels. */
  lemma ChannelNamesDistinct(a: Channel, b: Channel)
    ensures ChannelName(a) == ChannelName(b) ==> a == b
  {
    if a != b {
      assert ChannelName(a)[0] != ChannelName(b)[0] || |ChannelName(a)| != |ChannelName(b)|;
    }
  }
}
