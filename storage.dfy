/**
  The storage key that `save_pdf` (server/app/storage.py) derives from an
  uploaded file's name. Creating the directories and copying the file are
  I/O and not part of this model.
 */
module Storage {
  import opened Text

  const KeyPrefix: string := "pdfs/"

  /** A file name with every space replaced by an underscore. */
  function SafeName(filename: string): string {
    ReplaceChar(filename, ' ', '_')
  }

  /** The key under which the PDF is stored: `pdfs/` and then the safe name. */
  function StorageKey(filename: string): string {
    KeyPrefix + SafeName(filename)
  }

  /**
    The key is `pdfs/` followed by the file name in which each space became
    `_` and every other character is kept; it is five characters longer than
    the name and holds no space.
   */
  lemma StorageKeyShape(filename: string)
    ensures |StorageKey(filename)| == |filename| + 5
    ensures StartsWith(StorageKey(filename), KeyPrefix)
    ensures forall i :: 0 <= i < |filename| ==>
      StorageKey(filename)[5 + i] == (if filename[i] == ' ' then '_' else filename[i])
    ensures ' ' !in StorageKey(filename)
  {
    var key := StorageKey(filename);
    assert key[..5] == KeyPrefix;
    forall i | 0 <= i < |key| ensures key[i] != ' ' {
      if i >= 5 { assert key[i] == SafeName(filename)[i - 5]; }
    }
  }

  /** Two names get the same key exactly when they agree once spaces count as underscores. */
  lemma {:induction false} StorageKeyCollides(a: string, b: string)
    ensures StorageKey(a) == StorageKey(b) <==>
      |a| == |b| && forall i :: 0 <= i < |a| ==> (a[i] == b[i] || (a[i] in " _" && b[i] in " _"))
  {
    var ka, kb := StorageKey(a), StorageKey(b);
    StorageKeyShape(a);
    StorageKeyShape(b);
    if ka == kb {
      forall i | 0 <= i < |a| ensures a[i] == b[i] || (a[i] in " _" && b[i] in " _") {
        assert ka[5 + i] == kb[5 + i];
      }
    }
    if |a| == |b| && forall i :: 0 <= i < |a| ==> (a[i] == b[i] || (a[i] in " _" && b[i] in " _")) {
      forall i | 0 <= i < |ka| ensures ka[i] == kb[i] {
        if i >= 5 { assert ka[i] == kb[i]; }
      }
    }
  }

  /** `a b.pdf` and `a_b.pdf` are stored under the same key, so one overwrites the other. */
  lemma SpaceAndUnderscoreCollide()
    ensures StorageKey("a b.pdf") == StorageKey("a_b.pdf") == "pdfs/a_b.pdf"
  {
    StorageKeyCollides("a b.pdf", "a_b.pdf");
    StorageKeyShape("a_b.pdf");
    var k := StorageKey("a_b.pdf");
    assert k[..5] == "pdfs/";
    assert k == k[..5] + k[5..];
  }
}
