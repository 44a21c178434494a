/**
 * The user profile config object: the profile name and the profile picture
 * (URL plus decryption key), kept in a key-value store under the reserved
 * keys "n" (name), "p" (picture URL) and "q" (picture key, binary).
 */
module UserProfileConfig {
  import opened Common
  import opened Namespaces

  const NameKey: string := "n"
  const PicUrlKey: string := "p"
  const PicKeyKey: string := "q"

  /** Every key this config uses, now or in the past. */
  const ReservedKeys: set<string> := {NameKey, PicUrlKey, PicKeyKey}

  /** A stored value: text, or raw bytes. */
  datatype Field = Text(text: string) | Bytes(bytes: seq<byte>)

  /** The profile's key-value data. */
  type Data = map<string, Field>

  datatype ProfilePic = ProfilePic(url: string, key: seq<byte>)

  /** Data that uses only the reserved keys, each holding the kind of value it is for. */
  predicate WellFormedData(d: Data) {
    && d.Keys <= ReservedKeys
    && (NameKey in d ==> d[NameKey].Text?)
    && (PicUrlKey in d ==> d[PicUrlKey].Text?)
    && (PicKeyKey in d ==> d[PicKeyKey].Bytes?)
  }

  /** The profile name, if one is set. */
  function NameOf(d: Data): (r: Option<string>)
    ensures r.Some? <==> NameKey in d && d[NameKey].Text? && d[NameKey].text != ""
    ensures r.Some? ==> r.value == d[NameKey].text
  {
    if NameKey in d && d[NameKey].Text? && d[NameKey].text != "" then Some(d[NameKey].text) else None
  }

  /** The profile picture, present only when both its URL and its key are set and non-empty. */
  function PicOf(d: Data): (r: Option<ProfilePic>)
    ensures r.Some? <==> && PicUrlKey in d && d[PicUrlKey].Text? && d[PicUrlKey].text != ""
                         && PicKeyKey in d && d[PicKeyKey].Bytes? && d[PicKeyKey].bytes != []
    ensures r.Some? ==> r.value.url != "" && r.value.key != []
  {
    if && PicUrlKey in d && d[PicUrlKey].Text? && d[PicUrlKey].text != ""
       && PicKeyKey in d && d[PicKeyKey].Bytes? && d[PicKeyKey].bytes != []
    then Some(ProfilePic(d[PicUrlKey].text, d[PicKeyKey].bytes))
    else None
  }

  /**
   * The data after setting the name: an empty name removes it. Only key "n"
   * is touched, so the picture is unaffected.
   */
  function WithName(d: Data, name: string): (r: Data)
    ensures NameOf(r) == if name == "" then None else Some(name)
    ensures r - {NameKey} == d - {NameKey}
    ensures PicOf(r) == PicOf(d)
    ensures WellFormedData(d) ==> WellFormedData(r)
  {
    if name == "" then d - {NameKey} else d[NameKey := Text(name)]
  }

  /**
   * The data after setting the picture: both halves are stored, or both are
   * cleared when either is empty. Only keys "p" and "q" are touched, so the
   * name is unaffected.
   */
  function WithPic(d: Data, url: string, key: seq<byte>): (r: Data)
    ensures PicOf(r) == if url == "" || key == [] then None else Some(ProfilePic(url, key))
    ensures url == "" || key == [] ==> PicUrlKey !in r && PicKeyKey !in r
    ensures r - {PicUrlKey, PicKeyKey} == d - {PicUrlKey, PicKeyKey}
    ensures NameOf(r) == NameOf(d)
    ensures WellFormedData(d) ==> WellFormedData(r)
  {
    if url == "" || key == [] then d - {PicUrlKey, PicKeyKey}
    else d[PicUrlKey := Text(url)][PicKeyKey := Bytes(key)]
  }

  /** Setting the name twice keeps only the second. */
  lemma WithNameTwice(d: Data, a: string, b: string)
    ensures WithName(WithName(d, a), b) == WithName(d, b)
  {
  }

  /** Setting the name and setting the picture commute. */
  lemma NameAndPicCommute(d: Data, name: string, url: string, key: seq<byte>)
    ensures WithPic(WithName(d, name), url, key) == WithName(WithPic(d, url, key), name)
  {
  }

  /** The user profile config object. */
  class UserProfile {
    /** The 32-byte seed of the secret key the data is encrypted with. */
    const seed: seq<byte>
    var data: Data

    ghost predicate Valid()
      reads this`data
    {
      WellFormedData(data) && |seed| == 32
    }

    /**
     * A blank profile. The secret key is either the 32-byte seed or the
     * 64-byte seed-then-public-key form.
     */
    constructor (secretKey: seq<byte>)
      requires |secretKey| == 32 || |secretKey| == 64
      ensures Valid() && data == map[] && seed == secretKey[..32]
    {
      seed := secretKey[..32];
      data := map[];
    }

    /** The namespace this config is stored under. */
    function StorageNamespace(): (ns: Namespace)
      ensures ns == Namespace.UserProfile && Value(ns) == 2
    {
      Namespace.UserProfile
    }

    /** The domain string the encryption key of this config is derived with. */
    function EncryptionDomain(): (domain: string)
      ensures domain == "UserProfile"
    {
      "UserProfile"
    }

    /** The profile name, or None when none is set. */
    function GetName(): (r: Option<string>)
      reads this`data
      ensures r == NameOf(data)
      ensures r.None? <==> NameKey !in data || data[NameKey] == Text("") || data[NameKey].Bytes?
    {
      NameOf(data)
    }

    /** Sets the profile name; an empty name removes it. */
    method SetName(name: string)
      requires Valid()
      modifies this`data
      ensures Valid() && data == WithName(old(data), name)
      ensures GetName() == if name == "" then None else Some(name)
      ensures GetProfilePic() == old(GetProfilePic())
    {
      data := WithName(data, name);
    }

    /** The profile picture, or None when either its URL or its key is unset or empty. */
    function GetProfilePic(): (r: Option<ProfilePic>)
      reads this`data
      ensures r == PicOf(data)
      ensures r.None? <==> || PicUrlKey !in data || data[PicUrlKey] == Text("") || data[PicUrlKey].Bytes?
                           || PicKeyKey !in data || data[PicKeyKey] == Bytes([]) || data[PicKeyKey].Text?
    {
      PicOf(data)
    }

    /** Sets the profile picture; clears both halves when either is empty. */
    method SetProfilePic(url: string, key: seq<byte>)
      requires Valid()
      modifies this`data
      ensures Valid() && data == WithPic(old(data), url, key)
      ensures GetProfilePic() == if url == "" || key == [] then None else Some(ProfilePic(url, key))
      ensures GetName() == old(GetName())
    {
      data := WithPic(data, url, key);
    }

    /** Sets the profile picture from a URL-and-key pair. */
    method SetProfilePicFrom(pic: ProfilePic)
      requires Valid()
      modifies this`data
      ensures Valid() && data == WithPic(old(data), pic.url, pic.key)
    {
      SetProfilePic(pic.url, pic.key);
    }
  }

  /**
   * Creating a profile: a key of any other length is refused (the object is
   * not created, here None).
   */
  method NewUserProfile(secretKey: seq<byte>) returns (p: Option<UserProfile>)
    ensures p.None? <==> |secretKey| != 32 && |secretKey| != 64
    ensures p.Some? ==> fresh(p.value) && p.value.Valid() && p.value.data == map[]
  {
    if |secretKey| != 32 && |secretKey| != 64 {
      return None;
    }
    var profile := new UserProfile(secretKey);
    return Some(profile);
  }
}
