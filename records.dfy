/** The records that both type files of the application declare alike:
    gender, contact details, activity log entries and calendar events, and the
    first-match search (`Array.prototype.find` / `findIndex`) used on them. */
module Records {
  import opened Wrappers
  import opened Dates

  datatype Gender = Male | Female | Trans

  datatype PhoneType = Mobile | Landline | Fax

  datatype Phone = Phone(number: string, kind: PhoneType)

  datatype ContactInfo = ContactInfo(emails: seq<string>, phones: seq<Phone>, address: Option<string>)

  datatype ActivityType = Added | Edited | RelationshipAdded

  /** An entry of the append-only activity log. */
  datatype Activity = Activity(id: string, kind: ActivityType, description: string, timestamp: string, personId: string)

  datatype EventType = Birthday | Anniversary | Memorial

  /** The `type` string an event carries. */
  function EventTypeName(t: EventType): string {
    match t
    case Birthday => "birthday"
    case Anniversary => "anniversary"
    case Memorial => "memorial"
  }

  /** A calendar event; `date` is the day it falls on (its midnight). */
  datatype Event = Event(id: string, kind: EventType, title: string, date: Date, personId: string, description: Option<string>)

  /** `findIndex`: the first index whose element satisfies `p`, or -1. */
  function IndexWhere<T>(s: seq<T>, p: T -> bool): (i: int)
    ensures -1 <= i < |s|
    ensures i >= 0 ==> p(s[i]) && forall j :: 0 <= j < i ==> !p(s[j])
    ensures i == -1 <==> forall j :: 0 <= j < |s| ==> !p(s[j])
  {
    if s == [] then -1
    else if p(s[0]) then 0
    else
      var k := IndexWhere(s[1..], p);
      if k < 0 then -1 else k + 1
  }
}
