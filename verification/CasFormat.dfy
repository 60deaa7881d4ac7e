/** The stored form, spelled out (internal/archive/cas.go): which keys are dropped, what stays
inline, and what a reference looks like. */
module CasFormat {
  import opened Types
  import opened Cas

  /** An object loses exactly the two noise keys, whatever their case, and keeps the rest of its
      fields, themselves cleaned. */
  lemma NoiseExactly(c: Codec, rebuilt: bool, fields: map<string, Json>, k: string)
    ensures Cleaned(c, rebuilt, Obj(fields)).Obj?
    ensures k in Cleaned(c, rebuilt, Obj(fields)).fields <==>
            k in fields && c.lower(k) != "encrypted_content"
            && c.lower(k) != "internal_chat_message_metadata_passthrough"
    ensures k in Cleaned(c, rebuilt, Obj(fields)).fields ==>
              Cleaned(c, rebuilt, Obj(fields)).fields[k] == Cleaned(c, rebuilt, fields[k])
  {
  }

  /** Everything but objects is only touched through its parts; a text that is no data URL, and
      every text of the original, is the text itself. */
  lemma CleanedElsewhere(c: Codec, rebuilt: bool, v: Json)
    ensures v.Arr? ==> Cleaned(c, rebuilt, v).Arr? && |Cleaned(c, rebuilt, v).items| == |v.items|
    ensures v.Arr? ==> forall i | 0 <= i < |v.items| ::
              Cleaned(c, rebuilt, v).items[i] == Cleaned(c, rebuilt, v.items[i])
    ensures v.Str? && (!rebuilt || ParseDataUrl(c, v.text).None?) ==> Cleaned(c, rebuilt, v) == v
    ensures !v.Arr? && !v.Obj? && !v.Str? ==> Cleaned(c, rebuilt, v) == v
  {
  }

  /** A text that is no data URL stays in the manifest if and only if it is shorter than 1024. */
  lemma InlineExactly(c: Codec, s: string)
    ensures ParseDataUrl(c, s).None? ==> (CompactString(c, s) == Str(s) <==> |s| < 1024)
  {
    if |s| >= 1024 { RefFields(c.sha(s), "utf8", |s|, "text/plain; charset=utf-8"); }
  }

  /** No long text and no large nested container is left in the manifest. */
  ghost predicate Small(c: Codec, v: Json, nested: bool) {
    match v
    case Str(s) => |s| < 1024
    case Arr(items) =>
      (nested ==> |c.marshal(v)| < 16384) && forall i | 0 <= i < |items| :: Small(c, items[i], true)
    case Obj(fields) =>
      IsRef(fields) || ((nested ==> |c.marshal(v)| < 16384) && forall k | k in fields :: Small(c, fields[k], true))
    case _ => true
  }

  lemma RefIsSmall(c: Codec, hash: Hash, encoding: string, size: nat, media: string, nested: bool)
    ensures Small(c, RefJson(hash, encoding, size, media), nested)
  {
    RefFields(hash, encoding, size, media);
  }

  lemma {:induction false} InnerParts(c: Codec, v: Json, nested: bool)
    ensures v.Arr? ==> forall i | 0 <= i < |v.items| :: Small(c, Inner(c, v, nested).items[i], true)
    ensures v.Obj? ==> forall k | k in Inner(c, v, nested).fields :: Small(c, Inner(c, v, nested).fields[k], true)
    decreases v, 0
  {
    match v
    case Arr(items) =>
      forall i | 0 <= i < |items| ensures Small(c, Compact(c, items[i], true), true) {
        CompactSmall(c, items[i], true);
      }
    case Obj(fields) =>
      forall k | k in fields ensures Small(c, Compact(c, fields[k], true), true) { CompactSmall(c, fields[k], true); }
    case _ =>
  }

  /** What compaction leaves in place is small. */
  lemma {:induction false} CompactSmall(c: Codec, v: Json, nested: bool)
    ensures Small(c, Compact(c, v, nested), nested)
    decreases v, 1
  {
    match v
    case Str(s) => TextSmall(c, s, nested);
    case Arr(_) =>
      InnerParts(c, v, nested);
      ContainerSmall(c, v, nested);
    case Obj(_) =>
      InnerParts(c, v, nested);
      ContainerSmall(c, v, nested);
    case _ =>
  }

  lemma TextSmall(c: Codec, s: string, nested: bool)
    ensures Small(c, CompactString(c, s), nested)
  {
    match ParseDataUrl(c, s)
    case Some(url) => RefIsSmall(c, c.sha(url.raw), "data-url", |url.raw|, url.media, nested);
    case None => RefIsSmall(c, c.sha(s), "utf8", |s|, "text/plain; charset=utf-8", nested);
  }

  lemma ContainerSmall(c: Codec, v: Json, nested: bool)
    requires v.Arr? || v.Obj?
    requires v.Arr? ==> forall i | 0 <= i < |v.items| :: Small(c, Inner(c, v, nested).items[i], true)
    requires v.Obj? ==> forall k | k in Inner(c, v, nested).fields :: Small(c, Inner(c, v, nested).fields[k], true)
    ensures Small(c, MaybeExternalize(c, Inner(c, v, nested), nested), nested)
  {
    var inner := Inner(c, v, nested);
    if Externalizes(c, inner, nested) {
      RefIsSmall(c, c.sha(c.marshal(inner)), "json", |c.marshal(inner)|, "application/json", nested);
    }
  }

  // ----- References -----

  function Digit(ch: char): int {
    ch as int - '0' as int
  }

  function Reads(digits: string): int {
    if digits == [] then 0 else 10 * Reads(digits[..|digits| - 1]) + Digit(digits[|digits| - 1])
  }

  lemma {:induction false} DecimalReads(n: nat)
    ensures Decimal(n) != [] && Reads(Decimal(n)) == n
    ensures forall i | 0 <= i < |Decimal(n)| :: '0' <= Decimal(n)[i] <= '9'
    decreases n
  {
    var digits := Decimal(n);
    if n < 10 {
      assert digits[..|digits| - 1] == [];
    } else {
      DecimalReads(n / 10);
      assert digits[..|digits| - 1] == Decimal(n / 10);
    }
  }

  /** A reference, by the names of its fields; the media type only where there is one. */
  lemma ReferenceSpelled(hash: Hash, encoding: string, size: nat, media: string)
    ensures var ref := RefJson(hash, encoding, size, media);
            && ref.Obj?
            && ref.fields.Keys == {"$cpa_blob", "encoding", "size"} + (if media == "" then {} else {"media_type"})
            && ref.fields["$cpa_blob"] == Str(hash) && ref.fields["encoding"] == Str(encoding)
            && ref.fields["size"] == Num(Decimal(size)) && (media != "" ==> ref.fields["media_type"] == Str(media))
  {
  }
}
