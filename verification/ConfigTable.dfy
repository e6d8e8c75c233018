/** The table cfg_pacos of lib-config.c. */
module ConfigTable {
  import opened TextLines
  import opened ConfigText

  datatype Row = Row(id: int, name: string, defaultValue: string)

  const COUNT: nat := 15

  function Pacos(i: nat): Row
    requires i < COUNT
  {
    match i
    case 0 => Row(0, "gas_ip", "127.0.0.1")
    case 1 => Row(1, "gas_port", "8888")
    case 2 => Row(2, "gas_debug_port", "8889")
    case 3 => Row(3, "gas_max_thread", "8")
    case 4 => Row(4, "gas_max_connect", "1024")
    case 5 => Row(5, "gas_id", "1")
    case 6 => Row(6, "db_server_ip", "127.0.0.1")
    case 7 => Row(7, "db_server_port", "3306")
    case 8 => Row(8, "db_server_dbname", "openvpn")
    case 9 => Row(9, "db_server_user", "root")
    case 10 => Row(10, "db_server_pwd", "root")
    case 11 => Row(11, "db_server_connect", "20")
    case 12 => Row(12, "log_server_ip", "127.0.0.1")
    case 13 => Row(13, "log_server_port", "8890")
    case _ => Row(14, "AES_crypt_string", "1234567890-=][po")
  }

  function Name(i: nat): string
    requires i < COUNT
  {
    Pacos(i).name
  }

  lemma NamesOfRows()
    ensures Name(0) == "gas_ip" && Name(1) == "gas_port" && Name(2) == "gas_debug_port" && Name(3) == "gas_max_thread"
    ensures Name(4) == "gas_max_connect" && Name(5) == "gas_id" && Name(6) == "db_server_ip"
    ensures Name(7) == "db_server_port" && Name(8) == "db_server_dbname" && Name(9) == "db_server_user"
    ensures Name(10) == "db_server_pwd" && Name(11) == "db_server_connect" && Name(12) == "log_server_ip"
    ensures Name(13) == "log_server_port" && Name(14) == "AES_crypt_string"
  {
  }

  /** The ids are the positions in the table. */
  lemma IdIsPosition(i: nat)
    requires i < COUNT
    ensures Pacos(i).id == i
  {
  }

  predicate IsNameChar(c: char) {
    c == '_' || 'a' <= c <= 'z' || 'A' <= c <= 'Z'
  }

  predicate IsIdentifier(s: string) {
    s != "" && forall i :: 0 <= i < |s| ==> IsNameChar(s[i])
  }

  lemma GasIdentifiers(i: nat)
    requires 0 <= i < 6
    ensures IsIdentifier(Name(i)) && |Name(i)| <= 17
  {
  }

  lemma DbIdentifiers(i: nat)
    requires 6 <= i < 12
    ensures IsIdentifier(Name(i)) && |Name(i)| <= 17
  {
  }

  lemma OtherIdentifiers(i: nat)
    requires 12 <= i < 15
    ensures IsIdentifier(Name(i)) && |Name(i)| <= 17
  {
  }

  lemma NameIsIdentifier(i: nat)
    requires i < COUNT
    ensures IsIdentifier(Name(i)) && |Name(i)| <= 17
  {
    hide Name, IsIdentifier;
    if i < 6 {
      GasIdentifiers(i);
    } else if i < 12 {
      DbIdentifiers(i);
    } else {
      OtherIdentifiers(i);
    }
  }

  lemma NamesAreNames(i: nat)
    requires i < COUNT
    ensures IsName(Name(i))
  {
    NameIsIdentifier(i);
    hide Name;
    var s := Name(i);
    forall c | c in s
      ensures !IsSep(c) && !IsEol(c)
    {
      assert IsNameChar(c);
    }
    assert IsNameChar(s[0]);
  }

  /** The position of a name, from its length and one of its letters. */
  function PositionOf(s: string): nat {
    if |s| == 6 then (if s[4] == 'i' && s[5] == 'p' then 0 else 5)
    else if |s| == 8 then 1
    else if |s| == 12 then 6
    else if |s| == 13 then (if s[0] == 'd' then 10 else 12)
    else if |s| == 14 then
      (if s[4] == 'd' then 2 else if s[4] == 'm' then 3 else if s[10] == 'p' then 7 else 9)
    else if |s| == 15 then (if s[0] == 'g' then 4 else 13)
    else if |s| == 16 then (if s[0] == 'd' then 8 else 14)
    else 11
  }

  lemma NamePosition(i: nat)
    requires i < COUNT
    ensures PositionOf(Name(i)) == i
  {
  }

  /** No two rows have the same name. */
  lemma NamesDiffer(i: nat, j: nat)
    requires i < COUNT && j < COUNT && i != j
    ensures Name(i) != Name(j)
  {
    hide Name, PositionOf;
    NamePosition(i);
    NamePosition(j);
  }
}
