/**
 * The mail-address extractor: scans TCP payloads for `TO: <address>` and
 * `FROM: <address>` commands and keeps each tagged address once, in the order
 * first seen.
 */
module Mail {
  import opened Packets
  import opened Text
  import opened Dedup

  const ToCommand := "TO: <"
  const FromCommand := "FROM: <"

  /** Each address prefixed with `tag`, in order. */
  function Tagged(tag: string, addresses: seq<string>): (r: seq<string>)
    ensures |r| == |addresses|
    ensures forall i :: 0 <= i < |r| ==> r[i] == tag + addresses[i]
  {
    seq(|addresses|, i requires 0 <= i < |addresses| => tag + addresses[i])
  }

  lemma TaggedStep(tag: string, addresses: seq<string>, i: nat)
    requires i < |addresses|
    ensures Tagged(tag, addresses[..i + 1]) == Tagged(tag, addresses[..i]) + [tag + addresses[i]]
  {
  }

  /** The entries a payload offers: every `To:` address, then every `From:` address. */
  function Entries(text: string): seq<string> {
    Tagged("To:", Findall(text, ToCommand, 0)) + Tagged("From:", Findall(text, FromCommand, 0))
  }

  /** What the list may hold: a well-formed address behind a `To:` or `From:` tag. */
  ghost predicate IsEntry(e: string) {
    exists a :: IsAddress(a) && (e == "To:" + a || e == "From:" + a)
  }

  /** Every entry a payload offers is a tagged well-formed address. */
  lemma EntriesWellFormed(text: string)
    ensures forall e :: e in Entries(text) ==> IsEntry(e)
  {
    var to, from := Findall(text, ToCommand, 0), Findall(text, FromCommand, 0);
    forall e | e in Entries(text)
      ensures IsEntry(e)
    {
      var i :| 0 <= i < |Entries(text)| && Entries(text)[i] == e;
      if i < |to| {
        assert to[i] in to;
      } else {
        assert from[i - |to|] in from;
      }
    }
  }

  /** Characters that can occur in a well-formed address. */
  predicate AddressChar(c: char) {
    InClass(c, Word) || InClass(c, Host) || InClass(c, Domain) || c == '@'
  }

  lemma AddressChars(a: string)
    requires IsAddress(a)
    ensures forall t :: 0 <= t < |a| ==> AddressChar(a[t])
  {
    var k, h :| 0 < k && k + 1 < h && h + 1 < |a|
      && a[k] == '@' && a[h] == '.'
      && AllIn(a, 0, k, Word) && AllIn(a, k + 1, h, Host) && AllIn(a, h + 1, |a|, Domain);
    forall t | 0 <= t < |a|
      ensures AddressChar(a[t])
    {
      if t < k {
        assert InClass(a[t], Word);
      } else if t == k {
      } else if t < h {
        assert InClass(a[t], Host);
      } else if t == h {
        assert InClass(a[t], Word);
      } else {
        assert InClass(a[t], Domain);
      }
    }
  }

  /** A scan finds nothing where the command never occurs. */
  lemma {:induction false} FindallNone(s: string, prefix: string, i: nat)
    requires i <= |s|
    requires forall j :: i <= j <= |s| ==> !OccursAt(s, prefix, j)
    ensures Findall(s, prefix, i) == []
    decreases |s| - i
  {
    if i < |s| {
      FindallNone(s, prefix, i + 1);
    }
  }

  /**
   * A payload holding one `TO:` command with a well-formed address offers
   * exactly that address, tagged `To:`.
   */
  lemma SingleRecipient(a: string)
    requires IsAddress(a)
    ensures Entries(ToCommand + a + ">") == ["To:" + a]
  {
    var s := ToCommand + a + ">";
    CommandRoundTrip(ToCommand, a);
    AddressChars(a);
    forall j | 0 <= j <= |s|
      ensures !OccursAt(s, FromCommand, j)
    {
      if j + |FromCommand| <= |s| {
        assert s[j + 4] != ':' by {
          if j == 0 {
            assert s[4] == ToCommand[4];
          } else {
            assert s[j + 4] == a[j + 4 - |ToCommand|];
          }
        }
        assert s[j..j + |FromCommand|][4] == s[j + 4];
      }
    }
    FindallNone(s, FromCommand, 0);
  }

  /** Offering a payload's entries keeps the list free of duplicates and of anything but tagged addresses. */
  lemma EntriesKeepValid(list: seq<string>, text: string)
    requires NoDuplicates(list) && forall e :: e in list ==> IsEntry(e)
    ensures NoDuplicates(AddAllNew(list, Entries(text)))
    ensures forall e :: e in AddAllNew(list, Entries(text)) ==> IsEntry(e)
  {
    EntriesWellFormed(text);
  }

  /** The mail-address collector. */
  class FindEmails {
    var myEmails: seq<string>
    /** The last TCP payload read; None until the first TCP packet sets it. */
    var mail: Option<string>

    ghost predicate Valid()
      reads this
    {
      && NoDuplicates(myEmails)
      && forall e :: e in myEmails ==> IsEntry(e)
    }

    constructor ()
      ensures Valid() && myEmails == [] && mail == None
    {
      myEmails, mail := [], None;
    }

    /** Appends `tag + a` for each address `a` found, unless already listed. */
    method Offer(tag: string, found: seq<string>)
      modifies this
      ensures mail == old(mail)
      ensures myEmails == AddAllNew(old(myEmails), Tagged(tag, found))
    {
      var i := 0;
      while i < |found|
        invariant 0 <= i <= |found|
        invariant mail == old(mail)
        invariant myEmails == AddAllNew(old(myEmails), Tagged(tag, found[..i]))
      {
        var e := tag + found[i];
        ghost var before := myEmails;
        if e !in myEmails {
          myEmails := myEmails + [e];
        }
        assert myEmails == AddNew(before, e);
        TaggedStep(tag, found, i);
        AddAllNewStep(old(myEmails), Tagged(tag, found[..i]), e);
        i := i + 1;
      }
      assert found[..i] == found;
    }

    /**
     * Scans a packet. A TCP packet replaces the payload (by "" when it cannot
     * be read as text); any other packet scans the previous one again, and
     * fails when no TCP packet has been seen. Entries not yet listed are
     * appended in order, `To:` before `From:`.
     */
    method CheckEmails(p: Packet) returns (ok: bool)
      requires Valid()
      modifies this
      ensures Valid()
      ensures mail == (if p.proto == TCP then Some(PayloadText(p)) else old(mail))
      ensures ok <==> mail.Some?
      ensures ok ==> myEmails == AddAllNew(old(myEmails), Entries(mail.value))
      ensures !ok ==> myEmails == old(myEmails)
    {
      if p.proto == TCP {
        mail := Some(PayloadText(p));
      }
      if mail.None? {
        return false;
      }
      var text := mail.value;
      var to := Findall(text, ToCommand, 0);
      var from := Findall(text, FromCommand, 0);
      Offer("To:", to);
      Offer("From:", from);
      AddAllNewConcat(old(myEmails), Tagged("To:", to), Tagged("From:", from));
      EntriesKeepValid(old(myEmails), text);
      return true;
    }
  }

  /** The payload as text: "" when the segment is unparsed or not UTF-8. */
  function PayloadText(p: Packet): string {
    if p.segment.Some? && p.segment.value.text.Some? then p.segment.value.text.value else ""
  }
}
