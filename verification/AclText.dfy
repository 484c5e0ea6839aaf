/** The text form of an ACL as `acl/acl_update.c` reads it, and how to write it. */
module AclText {
  import opened Options
  import opened CStrings
  import opened Numerals
  import opened Sequences

  const MAX_ENTRIES := 10000

  /** `(id_t) -1`, which the functions that look up a name return for an error. */
  const NO_ID := 0xffff_ffff

  datatype Tag = UserObj | User | GroupObj | Group | Other | Mask

  /** A permission bit mask. */
  datatype Perms = Perms(r: bool, w: bool, x: bool)

  /** An entry that was read; the permissions are there only with -m. */
  datatype Spec = Spec(tag: Tag, qual: nat, perms: Option<Perms>)

  /** The password and group files: what getpwnam() and getgrnam() find. */
  datatype Names = Names(users: map<string, nat>, groups: map<string, nat>)

  predicate Named(tag: Tag) { tag == User || tag == Group }

  /** userIdFromName() and groupIdFromName(): a numeral, taken modulo 2^32, or a name. */
  function IdOf(s: string, ids: map<string, nat>): nat {
    if s == [] then NO_ID
    else
      var (value, used) := Strtol(s);
      if used == |s| then value % 0x1_0000_0000 else if s in ids then ids[s] else NO_ID
  }

  function TagOf(s: string, hasQual: bool): Option<Tag> {
    if s == "u" || s == "user" then Some(if hasQual then User else UserObj)
    else if s == "g" || s == "group" then Some(if hasQual then Group else GroupObj)
    else if s == "o" || s == "other" then Some(Other)
    else if s == "m" || s == "mask" then Some(Mask)
    else None
  }

  /** The permission characters, in any order and number, added to `perms`. */
  function PermsOf(s: string, perms: Perms): Option<Perms> {
    if s == [] then Some(perms)
    else if s[0] == 'r' then PermsOf(s[1..], perms.(r := true))
    else if s[0] == 'w' then PermsOf(s[1..], perms.(w := true))
    else if s[0] == 'x' then PermsOf(s[1..], perms.(x := true))
    else if s[0] == '-' then PermsOf(s[1..], perms)
    else None
  }

  const NO_PERMS := Perms(false, false, false)

  /** The tag type and qualifier; one that needs no qualifier ignores it. */
  function KeyOf(tagText: string, qualText: string, names: Names): Option<(Tag, nat)> {
    match TagOf(tagText, qualText != "")
    case None => None
    case Some(tag) =>
      var qual := if tag == User then IdOf(qualText, names.users)
                  else if tag == Group then IdOf(qualText, names.groups) else 0;
      if Named(tag) && qual == NO_ID then None else Some((tag, qual))
  }

  /** An entry of three fields, cut at the first two colons. */
  function EntryOf(tagText: string, qualText: string, permsText: string, permsReqd: bool, names: Names): Option<Spec> {
    if (permsText != "") != permsReqd then None
    else
      match KeyOf(tagText, qualText, names)
      case None => None
      case Some((tag, qual)) =>
        if !permsReqd then Some(Spec(tag, qual, None))
        else
          match PermsOf(permsText, NO_PERMS)
          case None => None
          case Some(perms) => Some(Spec(tag, qual, Some(perms)))
  }

  /** What follows the first `c` in `s`. */
  function After(s: string, c: char): string {
    if First(s, c) == |s| then "" else s[First(s, c) + 1..]
  }

  function EntrySpec(s: string, permsReqd: bool, names: Names): Option<Spec> {
    var i := First(s, ':');
    if i == |s| then None
    else
      var rest := s[i + 1..];
      EntryOf(s[..i], rest[..First(rest, ':')], After(rest, ':'), permsReqd, names)
  }

  function Pieces(s: string): seq<string> {
    var i := First(s, ',');
    if i == |s| then [s] else [s[..i]] + Pieces(s[i + 1..])
  }

  function Specs(pieces: seq<string>, permsReqd: bool, names: Names): Option<seq<Spec>> {
    if pieces == [] then Some([])
    else
      match EntrySpec(pieces[0], permsReqd, names)
      case None => None
      case Some(e) =>
        match Specs(pieces[1..], permsReqd, names)
        case None => None
        case Some(es) => Some([e] + es)
  }

  /** parseACL(): all entries, or None for -1. */
  function Acl(s: string, permsReqd: bool, names: Names): Option<seq<Spec>> {
    if |Pieces(s)| <= MAX_ENTRIES then Specs(Pieces(s), permsReqd, names) else None
  }

  // ---------------------------------------------------------------- writing an ACL

  /** An entry as it may be written: with a long or a short tag name, any qualifier, any
      permission characters, and a second colon even when no permissions follow. */
  datatype Written = Written(tag: Tag, long: bool, qual: string, perms: string, colon: bool)

  function TagText(tag: Tag, long: bool): string {
    match tag
    case UserObj => if long then "user" else "u"
    case User => if long then "user" else "u"
    case GroupObj => if long then "group" else "g"
    case Group => if long then "group" else "g"
    case Other => if long then "other" else "o"
    case Mask => if long then "mask" else "m"
  }

  /** What follows the first colon. */
  function RestText(t: Written): string {
    if t.perms != "" || t.colon then t.qual + ":" + t.perms else t.qual
  }

  function EntryText(t: Written): string {
    TagText(t.tag, t.long) + ":" + RestText(t)
  }

  predicate WellWritten(t: Written) {
    && ':' !in t.qual && ',' !in t.qual && ',' !in t.perms
    && (t.tag == User || t.tag == Group ==> t.qual != "")
    && (t.tag == UserObj || t.tag == GroupObj ==> t.qual == "")
  }

  function ListText(ts: seq<Written>): string
    requires ts != []
  {
    EntryText(ts[0]) + if |ts| == 1 then "" else "," + ListText(ts[1..])
  }

  // ---------------------------------------------------------------- what it means

  /** `text` names the user or group `id`: a numeral its value modulo 2^32, any other text
      the entry of that name; neither may be 2^32-1. */
  ghost predicate Identifies(text: string, ids: map<string, nat>, id: nat) {
    && id != NO_ID
    && if IsNumeral(text) then exists a: nat, b: nat :: NumeralAt(text, a, b) && id == IdAt(text, a, b)
       else text in ids && ids[text] == id
  }

  ghost predicate IsNumeral(text: string) {
    exists a: nat, b: nat :: NumeralAt(text, a, b)
  }

  function IdAt(text: string, a: nat, b: nat): nat
    requires NumeralAt(text, a, b)
  {
    NumeralValue(text, a, b) % 0x1_0000_0000
  }

  predicate PermChar(c: char) { c == 'r' || c == 'w' || c == 'x' || c == '-' }

  /** `text` holds only permission characters, and grants exactly what it mentions. */
  predicate Grants(text: string, perms: Perms) {
    && (forall c :: c in text ==> PermChar(c))
    && perms == Perms('r' in text, 'w' in text, 'x' in text)
  }

  /** A user name is looked up among the users, a group name among the groups, and any other
      tag ignores its qualifier. */
  ghost predicate KeyIs(t: Written, names: Names, qual: nat) {
    match t.tag
    case User => Identifies(t.qual, names.users, qual)
    case Group => Identifies(t.qual, names.groups, qual)
    case _ => qual == 0
  }

  ghost predicate Means(t: Written, permsReqd: bool, names: Names, e: Spec) {
    && e.tag == t.tag && KeyIs(t, names, e.qual)
    && (t.perms != "") == permsReqd == e.perms.Some?
    && (permsReqd ==> Grants(t.perms, e.perms.value))
  }

  ghost predicate ListMeans(ts: seq<Written>, permsReqd: bool, names: Names, es: seq<Spec>) {
    |es| == |ts| && forall i :: 0 <= i < |ts| ==> Means(ts[i], permsReqd, names, es[i])
  }

  // ---------------------------------------------------------------- reading what was written

  lemma IdOfIs(s: string, ids: map<string, nat>, id: nat)
    requires s != ""
    ensures IdOf(s, ids) == id != NO_ID <==> Identifies(s, ids, id)
  {
    if Strtol(s).1 == |s| {
      var a, b := OnlyNumeralsReadAll(s);
      assert IsNumeral(s);
    }
    forall a: nat, b: nat | NumeralAt(s, a, b) ensures IdOf(s, ids) == IdAt(s, a, b) {
      StrtolReadsAll(s, a, b);
    }
    if IsNumeral(s) {
      var a: nat, b: nat :| NumeralAt(s, a, b);
      assert IdOf(s, ids) == IdAt(s, a, b);
    }
  }

  lemma {:induction false} PermsOfIs(s: string, perms: Perms)
    ensures PermsOf(s, perms).Some? <==> forall c :: c in s ==> PermChar(c)
    ensures PermsOf(s, perms).Some? ==>
              PermsOf(s, perms).value == Perms(perms.r || 'r' in s, perms.w || 'w' in s, perms.x || 'x' in s)
  {
    if s != [] {
      assert forall c :: c in s <==> c == s[0] || c in s[1..];
      var p := if s[0] == 'r' then perms.(r := true) else if s[0] == 'w' then perms.(w := true)
               else if s[0] == 'x' then perms.(x := true) else perms;
      PermsOfIs(s[1..], p);
      if PermChar(s[0]) {
        assert PermsOf(s, perms) == PermsOf(s[1..], p);
        if !PermsOf(s, perms).Some? {
          var c :| c in s[1..] && !PermChar(c);
          assert c in s;
        }
      } else {
        assert s[0] in s;
      }
    }
  }

  lemma PermsOfGrants(s: string, perms: Perms)
    ensures PermsOf(s, NO_PERMS) == Some(perms) <==> Grants(s, perms)
  {
    PermsOfIs(s, NO_PERMS);
  }

  lemma TagTextReads(tag: Tag, long: bool)
    ensures TagOf(TagText(tag, long), Named(tag)) == Some(tag)
    ensures tag == Other || tag == Mask ==> TagOf(TagText(tag, long), true) == Some(tag)
    ensures ':' !in TagText(tag, long) && ',' !in TagText(tag, long)
  {
  }

  lemma FirstAfter(s: string, c: char, t: string)
    requires c !in s
    ensures First(s + [c] + t, c) == |s| && (s + [c] + t)[..|s|] == s && (s + [c] + t)[|s| + 1..] == t
  {
    assert (s + [c] + t)[..|s|] == s;
    FirstIs(s + [c] + t, c, |s|);
  }

  lemma FirstNone(s: string, c: char)
    requires c !in s
    ensures First(s, c) == |s| && s[..|s|] == s
  {
    assert s[..|s|] == s;
    FirstIs(s, c, |s|);
  }

  /** The three fields of a written entry. */
  lemma EntryTextFields(t: Written, permsReqd: bool, names: Names)
    requires WellWritten(t)
    ensures EntrySpec(EntryText(t), permsReqd, names)
            == EntryOf(TagText(t.tag, t.long), t.qual, t.perms, permsReqd, names)
  {
    TagTextReads(t.tag, t.long);
    FirstAfter(TagText(t.tag, t.long), ':', RestText(t));
    if t.perms != "" || t.colon {
      FirstAfter(t.qual, ':', t.perms);
    } else {
      FirstNone(t.qual, ':');
    }
  }

  /** A written entry is read as the entry it means, and refused if it means none. */
  lemma EntryReads(t: Written, permsReqd: bool, names: Names, e: Spec)
    requires WellWritten(t)
    ensures EntrySpec(EntryText(t), permsReqd, names) == Some(e) <==> Means(t, permsReqd, names, e)
  {
    EntryTextFields(t, permsReqd, names);
    FieldsMean(t, permsReqd, names, e);
  }

  lemma FieldsMean(t: Written, permsReqd: bool, names: Names, e: Spec)
    requires WellWritten(t)
    ensures EntryOf(TagText(t.tag, t.long), t.qual, t.perms, permsReqd, names) == Some(e)
            <==> Means(t, permsReqd, names, e)
  {
    KeyMeans(t, names, e.tag, e.qual);
    if e.perms.Some? { PermsOfGrants(t.perms, e.perms.value); }
  }

  lemma KeyMeans(t: Written, names: Names, tag: Tag, qual: nat)
    requires WellWritten(t)
    ensures KeyOf(TagText(t.tag, t.long), t.qual, names) == Some((tag, qual))
            <==> tag == t.tag && KeyIs(t, names, qual)
  {
    TagTextReads(t.tag, t.long);
    if t.tag == User { IdOfIs(t.qual, names.users, qual); }
    if t.tag == Group { IdOfIs(t.qual, names.groups, qual); }
  }

  lemma TagIsText(s: string, hasQual: bool)
    ensures match TagOf(s, hasQual)
            case None => true
            case Some(tag) => s == TagText(tag, |s| > 1) && (Named(tag) ==> hasQual)
                              && (tag == UserObj || tag == GroupObj ==> !hasQual)
  {
  }

  lemma CutAtFirst(s: string, c: char)
    requires First(s, c) < |s|
    ensures c !in s[..First(s, c)] && s == s[..First(s, c)] + [c] + s[First(s, c) + 1..]
  {
    FirstSplits(s, c);
  }

  /** An entry that is accepted has two or three fields that are. */
  lemma AcceptedFields(s: string, permsReqd: bool, names: Names) returns (t: Written)
    requires EntrySpec(s, permsReqd, names).Some?
    ensures var rest := s[First(s, ':') + 1..];
            && First(s, ':') < |s| && t.colon == (First(rest, ':') < |rest|)
            && s[..First(s, ':')] == TagText(t.tag, t.long)
            && t.qual == rest[..First(rest, ':')] && t.perms == After(rest, ':')
    ensures (Named(t.tag) ==> t.qual != "") && (t.tag == UserObj || t.tag == GroupObj ==> t.qual == "")
    ensures permsReqd ==> Grants(t.perms, EntrySpec(s, permsReqd, names).value.perms.value)
    ensures !permsReqd ==> t.perms == ""
  {
    var i := First(s, ':');
    var rest := s[i + 1..];
    var qual, perms, e := rest[..First(rest, ':')], After(rest, ':'), EntrySpec(s, permsReqd, names).value;
    TagIsText(s[..i], qual != "");
    if permsReqd { PermsOfGrants(perms, e.perms.value); }
    t := Written(e.tag, |s[..i]| > 1, qual, perms, First(rest, ':') < |rest|);
  }

  /** Nothing else is read: an accepted entry is a written one. */
  lemma AcceptedIsWritten(s: string, permsReqd: bool, names: Names) returns (t: Written)
    requires ',' !in s && EntrySpec(s, permsReqd, names).Some?
    ensures WellWritten(t) && EntryText(t) == s
  {
    t := AcceptedFields(s, permsReqd, names);
    var rest := s[First(s, ':') + 1..];
    CutAtFirst(s, ':');
    FirstSplits(rest, ':');
    if t.colon {
      CutAtFirst(rest, ':');
    } else {
      assert rest == rest[..First(rest, ':')];
    }
    assert forall c :: c in rest ==> c in s;
  }

  // ---------------------------------------------------------------- the list

  lemma EntryTextHasNoComma(t: Written)
    requires WellWritten(t)
    ensures ',' !in EntryText(t)
  {
    TagTextReads(t.tag, t.long);
  }

  function Texts(ts: seq<Written>): seq<string> {
    if ts == [] then [] else [EntryText(ts[0])] + Texts(ts[1..])
  }

  predicate AllWellWritten(ts: seq<Written>) {
    forall t :: t in ts ==> WellWritten(t)
  }

  lemma {:induction false} PiecesOfListText(ts: seq<Written>)
    requires ts != [] && AllWellWritten(ts)
    ensures Pieces(ListText(ts)) == Texts(ts) && |Texts(ts)| == |ts|
  {
    EntryTextHasNoComma(ts[0]);
    if |ts| == 1 {
      OnePiece(EntryText(ts[0]));
      assert ListText(ts) == EntryText(ts[0]);
      assert Texts(ts) == [EntryText(ts[0])];
    } else {
      PiecesOfListText(ts[1..]);
      PieceAndMore(EntryText(ts[0]), ListText(ts[1..]));
      Associate(EntryText(ts[0]), ",", ListText(ts[1..]));
    }
  }

  lemma OnePiece(s: string)
    requires ',' !in s
    ensures Pieces(s) == [s]
  {
    FirstNone(s, ',');
  }

  lemma PieceAndMore(s: string, more: string)
    requires ',' !in s
    ensures Pieces(s + "," + more) == [s] + Pieces(more)
  {
    FirstAfter(s, ',', more);
  }

  lemma {:induction false} TextsRead(ts: seq<Written>, permsReqd: bool, names: Names, es: seq<Spec>)
    requires AllWellWritten(ts)
    ensures Specs(Texts(ts), permsReqd, names) == Some(es) <==> ListMeans(ts, permsReqd, names, es)
  {
    if ts != [] && es != [] {
      EntryReads(ts[0], permsReqd, names, es[0]);
      TextsRead(ts[1..], permsReqd, names, es[1..]);
      ListMeansSplit(ts, permsReqd, names, es);
      SpecsCons(EntryText(ts[0]), Texts(ts[1..]), permsReqd, names, es);
    } else if ts != [] {
      assert Texts(ts) != [];
    }
  }

  lemma SpecsCons(s: string, more: seq<string>, permsReqd: bool, names: Names, es: seq<Spec>)
    requires es != []
    ensures Specs([s] + more, permsReqd, names) == Some(es)
            <==> EntrySpec(s, permsReqd, names) == Some(es[0]) && Specs(more, permsReqd, names) == Some(es[1..])
  {
    assert ([s] + more)[1..] == more;
    assert es == [es[0]] + es[1..];
  }

  lemma ListMeansSplit(ts: seq<Written>, permsReqd: bool, names: Names, es: seq<Spec>)
    requires ts != [] && es != []
    ensures ListMeans(ts, permsReqd, names, es)
            <==> Means(ts[0], permsReqd, names, es[0]) && ListMeans(ts[1..], permsReqd, names, es[1..])
  {
    if Means(ts[0], permsReqd, names, es[0]) && ListMeans(ts[1..], permsReqd, names, es[1..]) {
      forall i | 0 <= i < |ts| ensures Means(ts[i], permsReqd, names, es[i]) {
        if i > 0 { assert ts[i] == ts[1..][i - 1] && es[i] == es[1..][i - 1]; }
      }
    }
    if ListMeans(ts, permsReqd, names, es) {
      forall i | 0 <= i < |ts| - 1 ensures Means(ts[1..][i], permsReqd, names, es[1..][i]) {
        assert Means(ts[i + 1], permsReqd, names, es[i + 1]);
      }
    }
  }

  /** A written list is read as the entries it means, in order, and refused if one of them
      means nothing or there are more than 10000. */
  lemma AclReads(ts: seq<Written>, permsReqd: bool, names: Names, es: seq<Spec>)
    requires ts != [] && AllWellWritten(ts)
    ensures Acl(ListText(ts), permsReqd, names) == Some(es)
            <==> |ts| <= MAX_ENTRIES && ListMeans(ts, permsReqd, names, es)
  {
    PiecesOfListText(ts);
    TextsRead(ts, permsReqd, names, es);
  }

  predicate Accepted(s: string, permsReqd: bool, names: Names) {
    Specs(Pieces(s), permsReqd, names).Some?
  }

  lemma {:induction false} SpecsAreWritten(s: string, permsReqd: bool, names: Names) returns (ts: seq<Written>)
    requires Accepted(s, permsReqd, names)
    ensures ts != [] && AllWellWritten(ts) && ListText(ts) == s
    decreases |s|
  {
    var i := First(s, ',');
    SpecsCut(s, permsReqd, names);
    if i == |s| {
      ts := LastWritten(s, permsReqd, names);
    } else {
      var more := SpecsAreWritten(s[i + 1..], permsReqd, names);
      ts := OneMoreWritten(s, more, permsReqd, names);
    }
  }

  lemma SpecsCut(s: string, permsReqd: bool, names: Names)
    requires Accepted(s, permsReqd, names)
    ensures var i := First(s, ',');
            && ',' !in s[..i] && EntrySpec(s[..i], permsReqd, names).Some?
            && (i == |s| ==> s[..i] == s)
            && (i < |s| ==> Accepted(s[i + 1..], permsReqd, names))
  {
    var i := First(s, ',');
    FirstSplits(s, ',');
    if i == |s| {
      assert s[..i] == s;
    } else {
      SpecsHead(s[..i], Pieces(s[i + 1..]), permsReqd, names);
    }
  }

  lemma SpecsHead(s: string, more: seq<string>, permsReqd: bool, names: Names)
    requires Specs([s] + more, permsReqd, names).Some?
    ensures EntrySpec(s, permsReqd, names).Some? && Specs(more, permsReqd, names).Some?
  {
    assert ([s] + more)[1..] == more;
  }

  lemma LastWritten(s: string, permsReqd: bool, names: Names) returns (ts: seq<Written>)
    requires ',' !in s && EntrySpec(s, permsReqd, names).Some?
    ensures ts != [] && AllWellWritten(ts) && ListText(ts) == s
  {
    var t := AcceptedIsWritten(s, permsReqd, names);
    ts := [t];
    assert EntryText(t) + "" == s;
  }

  lemma OneMoreWritten(s: string, more: seq<Written>, permsReqd: bool, names: Names) returns (ts: seq<Written>)
    requires First(s, ',') < |s| && ',' !in s[..First(s, ',')]
    requires EntrySpec(s[..First(s, ',')], permsReqd, names).Some?
    requires more != [] && AllWellWritten(more) && ListText(more) == s[First(s, ',') + 1..]
    ensures ts != [] && AllWellWritten(ts) && ListText(ts) == s
  {
    var t := AcceptedIsWritten(s[..First(s, ',')], permsReqd, names);
    ts := [t] + more;
    CutAtFirst(s, ',');
    Associate(EntryText(t), ",", ListText(more));
    assert ts[1..] == more;
  }

  /** Nothing else is read: whatever the text, if it is accepted it is a written list, and the
      entries are those which that list means. */
  lemma AcceptedListIsWritten(s: string, es: seq<Spec>, permsReqd: bool, names: Names) returns (ts: seq<Written>)
    requires Acl(s, permsReqd, names) == Some(es)
    ensures 0 < |ts| <= MAX_ENTRIES && AllWellWritten(ts) && ListText(ts) == s
    ensures ListMeans(ts, permsReqd, names, es)
  {
    ts := SpecsAreWritten(s, permsReqd, names);
    AclReads(ts, permsReqd, names, es);
  }

  // ---------------------------------------------------------------- round trips

  /** The choices left when an entry is written with a numeral and the usual permissions. */
  datatype Style = Style(long: bool, colon: bool)

  function PermsText(perms: Perms): string {
    [if perms.r then 'r' else '-', if perms.w then 'w' else '-', if perms.x then 'x' else '-']
  }

  function Plain(e: Spec, style: Style): Written {
    Written(e.tag, style.long, if Named(e.tag) then Decimal(e.qual) else "",
            if e.perms.Some? then PermsText(e.perms.value) else "", style.colon)
  }

  function Plains(es: seq<Spec>, styles: seq<Style>): (ts: seq<Written>)
    requires |es| == |styles|
    ensures |ts| == |es|
  {
    seq(|es|, i requires 0 <= i < |es| => Plain(es[i], styles[i]))
  }

  /** An entry as the kernel can hold it: a 32-bit id for a named user or group only. */
  predicate Canonical(e: Spec) {
    e.qual <= NO_ID && (!Named(e.tag) ==> e.qual == 0)
  }

  /** An entry that the reader gives back as it was. */
  predicate Readable(e: Spec, permsReqd: bool) {
    e.perms.Some? == permsReqd && e.qual != NO_ID
  }

  predicate AllReadable(es: seq<Spec>, permsReqd: bool) {
    forall e :: e in es ==> Readable(e, permsReqd)
  }

  lemma PlainWritten(e: Spec, style: Style)
    ensures WellWritten(Plain(e, style))
  {
    DecimalDigits(e.qual);
    forall c | c in Decimal(e.qual) ensures IsDigit(c) {
      var i :| 0 <= i < |Decimal(e.qual)| && Decimal(e.qual)[i] == c;
    }
  }

  lemma DecimalId(n: nat, a: nat, b: nat)
    requires n <= NO_ID && NumeralAt(Decimal(n), a, b)
    ensures IdAt(Decimal(n), a, b) == n
  {
    StrtolReadsAll(Decimal(n), a, b);
    StrtolUndoesDecimal(n);
  }

  lemma DecimalIdentifies(n: nat, ids: map<string, nat>, id: nat)
    requires n <= NO_ID
    ensures Identifies(Decimal(n), ids, id) <==> id == n != NO_ID
  {
    var s := Decimal(n);
    DecimalNumeral(n);
    DecimalId(n, 0, 0);
    forall a: nat, b: nat | NumeralAt(s, a, b) ensures IdAt(s, a, b) == n {
      DecimalId(n, a, b);
    }
  }

  lemma PermsTextGrants(p: Perms, p': Perms)
    ensures PermsText(p) != "" && (Grants(PermsText(p), p') <==> p' == p)
  {
  }

  /** An entry reads back unless the id is the one that stands for an error. */
  lemma EntryReadsBack(e: Spec, style: Style, permsReqd: bool, names: Names, e': Spec)
    requires Canonical(e)
    ensures Means(Plain(e, style), permsReqd, names, e') <==> e' == e && Readable(e, permsReqd)
  {
    DecimalIdentifies(e.qual, names.users, e'.qual);
    DecimalIdentifies(e.qual, names.groups, e'.qual);
    assert KeyIs(Plain(e, style), names, e'.qual) <==> e'.qual == e.qual != NO_ID;
    if e.perms.Some? && e'.perms.Some? { PermsTextGrants(e.perms.value, e'.perms.value); }
  }

  /** Reading undoes writing, for every list of entries and every style, exactly when there are
      at most 10000, each with permissions as the option asks, and no id is 2^32-1; otherwise
      the list is refused. */
  lemma AclReadsBack(es: seq<Spec>, styles: seq<Style>, permsReqd: bool, names: Names)
    requires |es| == |styles| > 0 && forall e :: e in es ==> Canonical(e)
    ensures AllWellWritten(Plains(es, styles))
    ensures Acl(ListText(Plains(es, styles)), permsReqd, names)
            == if |es| <= MAX_ENTRIES && AllReadable(es, permsReqd) then Some(es) else None
  {
    var ts := Plains(es, styles);
    forall t | t in ts ensures WellWritten(t) {
      var i :| 0 <= i < |ts| && ts[i] == t;
      PlainWritten(es[i], styles[i]);
    }
    PlainsMean(es, styles, permsReqd, names, es);
    AclReads(ts, permsReqd, names, es);
    var r := Acl(ListText(ts), permsReqd, names);
    if r.Some? {
      AclReads(ts, permsReqd, names, r.value);
      PlainsMean(es, styles, permsReqd, names, r.value);
    }
  }

  lemma PlainsMean(es: seq<Spec>, styles: seq<Style>, permsReqd: bool, names: Names, es': seq<Spec>)
    requires |es| == |styles| && forall e :: e in es ==> Canonical(e)
    ensures ListMeans(Plains(es, styles), permsReqd, names, es') <==> es' == es && AllReadable(es, permsReqd)
  {
    var ts := Plains(es, styles);
    forall i, e | 0 <= i < |es|
      ensures Means(ts[i], permsReqd, names, e) <==> e == es[i] && Readable(es[i], permsReqd)
    {
      assert es[i] in es;
      EntryReadsBack(es[i], styles[i], permsReqd, names, e);
    }
    if ListMeans(ts, permsReqd, names, es') {
      assert forall i :: 0 <= i < |es| ==> es'[i] == es[i] && Readable(es[i], permsReqd);
    }
  }

  ghost predicate Ids32(ids: map<string, nat>) {
    forall s :: s in ids ==> ids[s] <= NO_ID
  }

  /** Whatever the text, an accepted list can be written in any style and is read back. */
  lemma AcceptedReadsBack(s: string, es: seq<Spec>, styles: seq<Style>, permsReqd: bool, names: Names)
    requires Ids32(names.users) && Ids32(names.groups) && Acl(s, permsReqd, names) == Some(es)
    ensures 0 < |es| <= MAX_ENTRIES
    ensures |styles| == |es| ==> Acl(ListText(Plains(es, styles)), permsReqd, names) == Some(es)
  {
    var ts := AcceptedListIsWritten(s, es, permsReqd, names);
    forall e | e in es ensures Canonical(e) && Readable(e, permsReqd) {
      var i :| 0 <= i < |es| && es[i] == e;
      assert Means(ts[i], permsReqd, names, es[i]);
    }
    if |styles| == |es| { AclReadsBack(es, styles, permsReqd, names); }
  }
}
