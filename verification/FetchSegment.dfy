// deployments/ops/fetch_segment.py: what one request of a recovery's leaves in its directory, and what it is answered.
module FetchSegment {
  import opened Wrappers
  import opened Text
  import opened Naming
  import opened Archive

  datatype Answer = Staged | Refused | Absent

  /** The three shapes of name a recovery asks for: a segment's, a backup label's, a timeline history's. */
  predicate IsRequestable(name: string) {
    || IsSegmentName(name)
    || (|name| == 40 && IsSegmentName(name[..24]) && name[24] == '.'
        && (forall i :: 25 <= i < 33 ==> IsHex(name[i])) && EndsWith(name, ".backup"))
    || (|name| == 16 && (forall i :: 0 <= i < 8 ==> IsHex(name[i])) && EndsWith(name, ".history"))
  }

  predicate AreHex(digits: string, count: nat) {
    |digits| == count && forall i :: 0 <= i < count ==> digits[i] in "0123456789ABCDEF"
  }

  ghost predicate IsBackupLabel(name: string, segment: string, offset: string) {
    AreHex(segment, 24) && AreHex(offset, 8) && name == segment + "." + offset + ".backup"
  }

  ghost predicate IsHistory(name: string, timeline: string) {
    AreHex(timeline, 8) && name == timeline + ".history"
  }

  /** Spelled out: 24 upper-case hex digits, or those with `.`, eight more and `.backup`, or eight with `.history`. */
  lemma {:induction false} RequestableNames(name: string)
    ensures IsRequestable(name) <==>
            || AreHex(name, 24)
            || (exists segment, offset :: IsBackupLabel(name, segment, offset))
            || exists timeline :: IsHistory(name, timeline)
  {
    assert IsSegmentName(name) <==> AreHex(name, 24) by { HexAre(name); }
    if |name| == 40 {
      BackupLabels(name);
    }
    if |name| == 16 {
      Histories(name);
    }
  }

  lemma {:induction false} HexAre(digits: string)
    ensures forall i :: 0 <= i < |digits| ==> (IsHex(digits[i]) <==> digits[i] in "0123456789ABCDEF")
  {
    forall i | 0 <= i < |digits| ensures IsHex(digits[i]) <==> digits[i] in "0123456789ABCDEF" {
      HexIs(digits[i]);
    }
  }

  lemma {:induction false} HexIs(c: char)
    ensures IsHex(c) <==> c in "0123456789ABCDEF"
  {
    var digits := "0123456789ABCDEF";
    if '0' <= c <= '9' {
      assert digits[c as int - '0' as int] == c;
    } else if 'A' <= c <= 'F' {
      assert digits[c as int - 'A' as int + 10] == c;
    }
  }

  lemma {:induction false} BackupLabels(name: string)
    requires |name| == 40
    ensures IsSegmentName(name[..24]) && name[24] == '.' && (forall i :: 25 <= i < 33 ==> IsHex(name[i]))
            && EndsWith(name, ".backup") <==>
            exists segment, offset :: IsBackupLabel(name, segment, offset)
  {
    HexAre(name);
    HexAre(name[..24]);
    assert name == name[..24] + [name[24]] + name[25..33] + name[33..];
    if IsSegmentName(name[..24]) && name[24] == '.' && (forall i :: 25 <= i < 33 ==> IsHex(name[i]))
       && EndsWith(name, ".backup")
    {
      assert IsBackupLabel(name, name[..24], name[25..33]);
    }
    if segment, offset :| IsBackupLabel(name, segment, offset) {
      assert name[..24] == segment && name[25..33] == offset && name[33..] == ".backup";
      forall i | 25 <= i < 33 ensures IsHex(name[i]) {
        assert name[i] == offset[i - 25];
      }
    }
  }

  lemma {:induction false} Histories(name: string)
    requires |name| == 16
    ensures (forall i :: 0 <= i < 8 ==> IsHex(name[i])) && EndsWith(name, ".history") <==>
            exists timeline :: IsHistory(name, timeline)
  {
    HexAre(name);
    if (forall i :: 0 <= i < 8 ==> IsHex(name[i])) && EndsWith(name, ".history") {
      assert name == name[..8] + name[8..];
      assert IsHistory(name, name[..8]);
    }
    if timeline :| IsHistory(name, timeline) {
      assert name[..8] == timeline && name[8..] == ".history";
    }
  }

  function Working(segment: string): string {
    segment + ".part"
  }

  function Compressed(segment: string): string {
    Working(segment) + COMPRESSED_SUFFIX
  }

  function Encrypted(segment: string): string {
    Compressed(segment) + ENCRYPTED_SUFFIX
  }

  lemma {:induction false} WorkingNamesDiffer(segment: string)
    ensures segment != Working(segment)
    ensures Working(segment) != Compressed(segment) && Compressed(segment) != Encrypted(segment)
    ensures segment != Compressed(segment) && segment != Encrypted(segment) && Working(segment) != Encrypted(segment)
  {
    assert |segment| < |Working(segment)| < |Compressed(segment)| < |Encrypted(segment)|;
  }

  /** None of the names this step works under is one a recovery asks for. */
  lemma {:induction false} WorkingIsNeverRequested(segment: string)
    ensures !IsRequestable(Working(segment))
    ensures !IsRequestable(Compressed(segment)) && !IsRequestable(Encrypted(segment))
  {
    LastDecides(Working(segment), 't');
    LastDecides(Compressed(segment), 'z');
    LastDecides(Encrypted(segment), 'g');
  }

  lemma {:induction false} LastDecides(name: string, last: char)
    requires name != "" && name[|name| - 1] == last && !IsHex(last) && last != 'p' && last != 'y'
    ensures !IsRequestable(name)
  {
    LastOfSuffix(name, ".backup");
    LastOfSuffix(name, ".history");
  }

  /** Where the work can stop. */
  datatype Faults = Faults(listing: bool, key: bool, download: Option<Blob>, decrypt: bool, unzip: bool, own: bool)

  /** The object is there to be fetched: the name is one worth asking for, and neither listing the bucket nor reading
      the key fails. */
  predicate IsAttempted(segment: string, bucket: map<string, Object>, faults: Faults) {
    IsRequestable(segment) && !faults.listing && SegmentObject(segment) in bucket && !faults.key
  }

  /** And nothing stands between it and its place in the directory. */
  predicate IsMoved(segment: string, bucket: map<string, Object>, faults: Faults) {
    && IsAttempted(segment, bucket, faults)
    && faults.download.None? && !faults.decrypt && !faults.unzip
    && Decoded(bucket[SegmentObject(segment)].content).Some?
  }

  /** The directory a recovery copies segments from. */
  class Scratch {
    var files: map<string, Blob>

    /** Absent is answered exactly when a readable bucket does not hold a name worth asking for. A file appears under
        the name asked for only when it is whole, and no file of this step's own is left behind. */
    method Fetch(segment: string, bucket: map<string, Object>, faults: Faults) returns (answer: Answer)
      modifies this
      ensures answer == Absent <==> IsRequestable(segment) && !faults.listing && SegmentObject(segment) !in bucket
      ensures answer == Staged <==> IsMoved(segment, bucket, faults) && !faults.own
      ensures files == if IsMoved(segment, bucket, faults) then
                         old(files)[segment := Plain(Decoded(bucket[SegmentObject(segment)].content).value)]
                         - {Working(segment), Compressed(segment), Encrypted(segment)}
                       else if IsAttempted(segment, bucket, faults) then
                         old(files) - {Working(segment), Compressed(segment), Encrypted(segment)}
                       else old(files)
      ensures answer == Staged ==>
                && SegmentObject(segment) in bucket && Decoded(bucket[SegmentObject(segment)].content).Some?
                && segment in files
                && files[segment] == Plain(Decoded(bucket[SegmentObject(segment)].content).value)
      ensures answer == Refused && segment in files ==>
                || (segment in old(files) && files[segment] == old(files)[segment])
                || (SegmentObject(segment) in bucket
                    && files[segment].Plain?
                    && Decoded(bucket[SegmentObject(segment)].content) == Some(files[segment].bytes))
      ensures forall name :: name != segment && IsRequestable(name) ==>
                (name in files <==> name in old(files)) && (name in files ==> files[name] == old(files)[name])
      ensures forall name :: name in {Working(segment), Compressed(segment), Encrypted(segment)} && name in files ==>
                name in old(files)
    {
      WorkingNamesDiffer(segment);
      WorkingIsNeverRequested(segment);
      if !IsRequestable(segment) || faults.listing {
        return Refused;
      }
      var held := SegmentObject(segment);
      if held !in bucket {
        return Absent;
      }
      if faults.key {
        return Refused;
      }
      var ok := DownloadAndDecrypt(segment, bucket[held].content, faults);
      ok := ok && !faults.unzip && files[Compressed(segment)].Gzip? && files[Compressed(segment)].of.Plain?;
      if ok {
        // gzip puts its output beside its input, without the suffix; the move into place comes after.
        files := files[Working(segment) := files[Compressed(segment)].of] - {Compressed(segment)};
        files := files[segment := files[Working(segment)]] - {Working(segment)};
      }
      files := files - {Compressed(segment), Working(segment)};
      return if ok && !faults.own then Staged else Refused;
    }

    /** On success the directory gains the object's content decrypted. On no path does it keep the encrypted copy. */
    method DownloadAndDecrypt(segment: string, content: Blob, faults: Faults) returns (ok: bool)
      modifies this
      ensures ok <==> faults.download.None? && !faults.decrypt && content.Gpg?
      ensures files == (if ok then old(files)[Compressed(segment) := content.of] else old(files)) - {Encrypted(segment)}
    {
      WorkingNamesDiffer(segment);
      match faults.download
      case Some(partial) =>
        files := files[Encrypted(segment) := partial];
        files := files - {Encrypted(segment)};
        return false;
      case None =>
        files := files[Encrypted(segment) := content];
        ok := !faults.decrypt && content.Gpg?;
        if ok {
          files := files[Compressed(segment) := content.of];
        }
        files := files - {Encrypted(segment)};
    }
  }
}
