/** The cached text: `FeatureFlag.model_dump_json` and `model_validate_json`. */
module FlagJson {
  import opened Prelude
  import opened FeatureFlags
  import opened Json
  import IsoStamp

  const NAME := "name"
  const ENABLED := "enabled"
  const UPDATED_AT := "updated_at"
  const UPDATED_BY := "updated_by_user_id"

  function MemberAt(f: Flag, i: nat): Member
    requires i < 4
  {
    match i
    case 0 => Member(NAME, String(f.name))
    case 1 => Member(ENABLED, if f.enabled then True else False)
    case 2 => Member(UPDATED_AT, String(IsoStamp.Stamp(f.updatedAt)))
    case _ => Member(UPDATED_BY, String(f.updatedBy))
  }

  /** In the order in which the model declares them. */
  function MembersOf(f: Flag): (members: seq<Member>)
    ensures |members| == 4
  {
    seq(4, i requires 0 <= i < 4 => MemberAt(f, i))
  }

  /** `flag.model_dump_json()`. */
  function Encode(f: Flag): string {
    WriteObject(MembersOf(f))
  }

  /** The value of the last member of the name. */
  function Lookup(members: seq<Member>, name: string): Option<Value> {
    if members == [] then None
    else if members[|members| - 1].name == name then Some(members[|members| - 1].value)
    else Lookup(members[..|members| - 1], name)
  }

  function AsText(value: Option<Value>): Option<string> {
    if value.Some? && value.value.String? then Some(value.value.chars) else None
  }

  function AsBool(value: Option<Value>): Option<bool> {
    if value == Some(True) then Some(true) else if value == Some(False) then Some(false) else None
  }

  function AsStamp(value: Option<Value>): Option<Timestamp> {
    var text :- AsText(value);
    var stamp :- IsoStamp.ReadStamp(text);
    if stamp.rest == "" then Some(stamp.value) else None
  }

  function Validated(name: Option<string>, enabled: Option<bool>, stamp: Option<Timestamp>, editor: Option<string>): Option<Flag> {
    if name.Some? && name.value != "" && enabled.Some? && stamp.Some? && editor.Some? && editor.value != "" then
      Some(Flag(name.value, enabled.value, stamp.value, editor.value))
    else None
  }

  /** `FeatureFlag.model_validate_json(text)`: members in any order, others ignored.
      `None` is its validation error. */
  function Decode(text: string): Option<Flag> {
    var members :- ReadObject(text);
    Validated(AsText(Lookup(members, NAME)), AsBool(Lookup(members, ENABLED)),
              AsStamp(Lookup(members, UPDATED_AT)), AsText(Lookup(members, UPDATED_BY)))
  }

  lemma MembersAre(f: Flag, stamp: string)
    requires stamp == IsoStamp.Stamp(f.updatedAt)
    ensures MembersOf(f) == [Member("name", String(f.name)), Member("enabled", if f.enabled then True else False),
                             Member("updated_at", String(stamp)), Member("updated_by_user_id", String(f.updatedBy))]
  {
    var members := MembersOf(f);
    assert members[0] == MemberAt(f, 0) && members[1] == MemberAt(f, 1);
    assert members[2] == MemberAt(f, 2) && members[3] == MemberAt(f, 3);
  }

  /** The cached text is a JSON object with exactly the four members of the flag: the
      literal `true` when it is enabled, else `false`, and the three strings. */
  lemma EncodedMembers(f: Flag)
    ensures ReadObject(Encode(f)) ==
            Some([Member("name", String(f.name)),
                  Member("enabled", if f.enabled then True else False),
                  Member("updated_at", String(IsoStamp.Stamp(f.updatedAt))),
                  Member("updated_by_user_id", String(f.updatedBy))])
  {
    ReadWrittenObject(MembersOf(f));
    MembersAre(f, IsoStamp.Stamp(f.updatedAt));
  }

  /** Among names without repetition, each finds its own value. */
  lemma {:induction false} LookupAt(members: seq<Member>, i: nat)
    requires i < |members|
    requires forall j, k | 0 <= j < k < |members| :: members[j].name != members[k].name
    ensures Lookup(members, members[i].name) == Some(members[i].value)
    decreases |members|
  {
    var n := |members| - 1;
    if i == n {
    } else {
      LookupAt(members[..n], i);
    }
  }

  lemma NamesDiffer(f: Flag)
    ensures forall j, k | 0 <= j < k < 4 :: MembersOf(f)[j].name != MembersOf(f)[k].name
  {
    assert |NAME| == 4 && |ENABLED| == 7 && |UPDATED_AT| == 10 && |UPDATED_BY| == 18;
  }

  lemma LookupOf(f: Flag, i: nat)
    requires i < 4
    ensures Lookup(MembersOf(f), MembersOf(f)[i].name) == Some(MembersOf(f)[i].value)
  {
    NamesDiffer(f);
    LookupAt(MembersOf(f), i);
  }

  lemma StampReads(t: Timestamp)
    ensures AsStamp(Some(String(IsoStamp.Stamp(t)))) == Some(t)
  {
    IsoStamp.ReadStampOf(t, "");
    assert IsoStamp.Stamp(t) + "" == IsoStamp.Stamp(t);
  }

  lemma DecodeMembers(text: string, f: Flag, members: seq<Member>)
    requires ReadObject(text) == Some(members)
    requires Lookup(members, NAME) == Some(String(f.name)) && Lookup(members, UPDATED_BY) == Some(String(f.updatedBy))
    requires Lookup(members, ENABLED) == Some(if f.enabled then True else False)
    requires AsStamp(Lookup(members, UPDATED_AT)) == Some(f.updatedAt)
    ensures Decode(text) == Some(f)
  {
  }

  /** The cache round trip: a hit is the flag that was stored, for every flag,
      whatever quotes, backslashes and controls its name and editor hold. */
  lemma DecodeEncode(f: Flag)
    ensures Decode(Encode(f)) == Some(f)
  {
    ReadWrittenObject(MembersOf(f));
    LookupOf(f, 0);
    LookupOf(f, 1);
    LookupOf(f, 2);
    LookupOf(f, 3);
    StampReads(f.updatedAt);
    DecodeMembers(Encode(f), f, MembersOf(f));
  }
}
