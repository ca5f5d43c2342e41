/** Bucket members as text: the primary key, the version stamp, and for prefix copies the value. */
module MemberCodec {
  import opened Wrappers
  import opened Text

  const NUL: char := 0 as char

  function PlainMember(pk: string, ver: nat): string { pk + [UNIT_SEPARATOR] + Digits(ver) }

  function LexMember(value: string, pk: string, ver: nat): string { value + [NUL] + PlainMember(pk, ver) }

  /** What stands before the last separator, if a number stands after it; otherwise the whole. */
  function MemberPK(member: string): string {
    var i := LastIndexOf(member, UNIT_SEPARATOR);
    if i.Some? && i.value > 0 && ParseDigits(member[i.value + 1..]).Some? then member[..i.value] else member
  }

  function MemberVer(member: string): Option<nat> {
    var i := LastIndexOf(member, UNIT_SEPARATOR);
    if i.None? || i.value == 0 then None else ParseDigits(member[i.value + 1..])
  }

  /** Value and key of a prefix member; a value may not be empty. */
  function LexParts(member: string): Option<(string, string)> {
    var cut := IndexOf(member, NUL);
    if cut.None? || cut.value == 0 then None else Some((member[..cut.value], MemberPK(member[cut.value + 1..])))
  }

  lemma NoSeparatorInDigits(n: nat)
    ensures UNIT_SEPARATOR !in Digits(n) && NUL !in Digits(n)
  {
  }

  /** Key and stamp are read back, for every key but the empty one, whatever bytes it has. */
  lemma PlainRoundTrip(pk: string, ver: nat)
    ensures MemberPK(PlainMember(pk, ver)) == pk <==> pk != ""
    ensures MemberVer(PlainMember(pk, ver)) == if pk == "" then None else Some(ver)
  {
    hide Digits, ParseDigits;
    NoSeparatorInDigits(ver);
    LastAt(pk, UNIT_SEPARATOR, Digits(ver));
    DigitsRoundTrip(ver);
  }

  lemma PlainMembersDiffer(pk: string, ver: nat, pk': string, ver': nat)
    requires pk != "" && pk' != "" && PlainMember(pk, ver) == PlainMember(pk', ver')
    ensures pk == pk' && ver == ver'
  {
    hide PlainMember, MemberPK, MemberVer;
    PlainRoundTrip(pk, ver);
    PlainRoundTrip(pk', ver');
  }

  /** Value and key of a prefix copy are read back exactly when neither is empty and the value has no NUL. */
  lemma LexRoundTrip(value: string, pk: string, ver: nat)
    ensures LexParts(LexMember(value, pk, ver)) == Some((value, pk)) <==> value != "" && NUL !in value && pk != ""
  {
    hide PlainMember, MemberPK;
    PlainRoundTrip(pk, ver);
    if NUL in value {
      var i := IndexOf(value, NUL).value;
      var rest := value[i + 1..] + [NUL] + PlainMember(pk, ver);
      FirstAt(value[..i], NUL, rest);
      assert LexMember(value, pk, ver) == value[..i] + [NUL] + rest;
    } else {
      FirstAt(value, NUL, PlainMember(pk, ver));
    }
  }
}
