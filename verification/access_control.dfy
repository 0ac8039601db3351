/** Who counts as an administrator, and wallet comparison. The administrator
    list is the comma-separated `ADMIN_ADDRESSES` setting (empty when unset),
    each entry trimmed and lower-cased, empty entries dropped; a wallet is
    an administrator when its lower-cased form is in that list. */
module AccessControl {
  import opened Text
  import Seqs

  predicate NonEmpty(a: string)
  {
    |a| > 0
  }

  /** One configured entry as it is compared: trimmed, then lower-cased. */
  function Normalize(entry: string): string
  {
    Lower(Trim(entry))
  }

  /** Every comma-separated entry of the setting, normalized. */
  function Entries(configured: string): (r: seq<string>)
    ensures |r| == |Split(configured, ',')|
    ensures forall i :: 0 <= i < |r| ==> r[i] == Normalize(Split(configured, ',')[i])
  {
    var parts := Split(configured, ',');
    seq(|parts|, i requires 0 <= i < |parts| => Normalize(parts[i]))
  }

  /** The normalized non-empty entries of the configured list, in order. */
  function AdminList(configured: string): (r: seq<string>)
    ensures forall i :: 0 <= i < |r| ==> |r[i]| > 0
  {
    Seqs.Filter(Entries(configured), NonEmpty)
  }

  predicate IsAdmin(configured: string, wallet: string)
  {
    Lower(wallet) in AdminList(configured)
  }

  /** Case-insensitive wallet equality, as the routes compare submitters. */
  predicate SameWallet(a: string, b: string)
  {
    Lower(a) == Lower(b)
  }

  /** A wallet is an administrator exactly when some comma-separated entry
      of the setting, trimmed and lower-cased, is its lower-cased form and
      is not empty. */
  lemma IsAdminSpec(configured: string, wallet: string)
    ensures IsAdmin(configured, wallet) <==>
      |wallet| > 0 && exists i :: 0 <= i < |Split(configured, ',')| && Normalize(Split(configured, ',')[i]) == Lower(wallet)
  {
    var w := Lower(wallet);
    if IsAdmin(configured, wallet) {
      AdminFromList(configured, w);
    }
    if |wallet| > 0 && exists i :: 0 <= i < |Split(configured, ',')| && Normalize(Split(configured, ',')[i]) == w {
      var i :| 0 <= i < |Split(configured, ',')| && Normalize(Split(configured, ',')[i]) == w;
      AdminFromEntry(configured, i, w);
    }
  }

  lemma AdminFromList(configured: string, w: string)
    requires w in AdminList(configured)
    ensures |w| > 0 && exists i :: 0 <= i < |Split(configured, ',')| && Normalize(Split(configured, ',')[i]) == w
  {
    var entries := Entries(configured);
    assert w in entries;
    var i :| 0 <= i < |entries| && entries[i] == w;
  }

  lemma AdminFromEntry(configured: string, i: int, w: string)
    requires 0 <= i < |Split(configured, ',')| && Normalize(Split(configured, ',')[i]) == w && |w| > 0
    ensures w in AdminList(configured)
  {
    var entries := Entries(configured);
    assert entries[i] == w;
    assert NonEmpty(entries[i]);
  }

  /** With the setting unset or empty nobody is an administrator. */
  lemma NoAdminsWhenUnset(wallet: string)
    ensures !IsAdmin("", wallet)
  {
    assert Split("", ',') == [""];
    assert Normalize("") == "";
  }

  /** The check ignores the letter case of the presented wallet. */
  lemma IsAdminIgnoresCase(configured: string, wallet: string)
    ensures IsAdmin(configured, wallet) == IsAdmin(configured, Lower(wallet))
  {
    LowerIdempotent(wallet);
  }

  /** Appending `,entry` to the setting makes the entry's trimmed form an
      administrator, in any letter case. */
  lemma AppendedEntryIsAdmin(configured: string, entry: string)
    requires ',' !in entry
    requires |Trim(entry)| > 0
    ensures IsAdmin(configured + [','] + entry, Trim(entry))
  {
    var s := configured + [','] + entry;
    SplitAppend(configured, entry, ',');
    var parts := Split(s, ',');
    assert parts[|parts| - 1] == entry;
    AdminFromEntry(s, |parts| - 1, Lower(Trim(entry)));
  }
}
