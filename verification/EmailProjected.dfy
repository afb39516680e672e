/** Which mail the quota holds back and which can be sent at all, for every type of event the projection makes mail of. */
module EmailProjected {
  import opened Prelude
  import opened EmailTables
  import opened EmailMachine
  import opened EmailLog
  import Projection

  type EventType = string

  // ----- the worker's prefixes against the projection's lists

  lemma SecurityPrefixes(t: EventType)
    requires t in Projection.SECURITY_EVENTS || t in Projection.MODERATION_EVENTS
    ensures "identity." <= t || "moderation." <= t
  {
  }

  lemma CommunityPrefixes(t: EventType)
    requires t in Projection.COMMUNITY_EVENTS
    ensures |t| > 1 && t[0] == 'm' && t[1] == 'e'
  {
  }

  lemma RegistrationStart(t: EventType)
    requires t in Projection.REGISTRATION_EVENTS
    ensures "registration." <= t && t[0] == 'r'
  {
  }

  lemma EventStart(t: EventType)
    requires t in Projection.EVENT_EVENTS || t == "event.update_published"
    ensures "event." <= t && t[0] == 'e'
  {
  }

  lemma CommunityStart(t: EventType)
    requires Projection.CategoryOf(t) == Some(Projection.Community)
    ensures "membership." <= t || "club." <= t
  {
    if t !in Projection.COMMUNITY_EVENTS {
      assert t == "club.announcement_published";
    }
  }

  /** The prefixes of the worker draw the same line as the categories of the projection. */
  lemma SecurityIsByPrefix(t: EventType)
    requires Projection.CategoryOf(t).Some?
    ensures Projection.CategoryOf(t) == Some(Projection.Security) <==> "identity." <= t || "moderation." <= t
  {
    if Projection.CategoryOf(t) == Some(Projection.Security) {
      SecurityPrefixes(t);
    } else if t in Projection.REGISTRATION_EVENTS {
      RegistrationStart(t);
    } else if t in Projection.COMMUNITY_EVENTS {
      CommunityPrefixes(t);
    } else if t == "club.announcement_published" {
      assert t[0] == 'c';
    } else {
      EventStart(t);
    }
  }

  /** The other two categories by prefix. */
  lemma CategoryIsByPrefix(t: EventType)
    requires Projection.CategoryOf(t).Some?
    ensures Projection.CategoryOf(t) == Some(Projection.Event) <==> "registration." <= t || "event." <= t
    ensures Projection.CategoryOf(t) == Some(Projection.Community) <==> "membership." <= t || "club." <= t
  {
    SecurityIsByPrefix(t);
    if t in Projection.REGISTRATION_EVENTS {
      RegistrationStart(t);
    } else if Projection.CategoryOf(t) == Some(Projection.Community) {
      CommunityStart(t);
    } else if Projection.CategoryOf(t) == Some(Projection.Event) {
      EventStart(t);
    }
    assert t[0] in {'i', 'm', 'r', 'e', 'c'};
    assert "membership." <= t ==> t[1] == 'e';
    assert "moderation." <= t ==> t[1] == 'o';
  }

  // ----- the quota

  /** What a check comes to.  Mail of the security category goes straight to the provider, whatever
      the quota, the reservations and the read; mail of every other category does so only when it has a reservation, and
      without one asks for a slot. */
  lemma CheckGoes(cfg: Config, s: State, r: nat, readOk: bool)
    requires Enabled(cfg, s, Check(r, readOk))
    ensures var id := s.runs[r].queue[0].id;
            var category := Projection.CategoryOf(s.rows[id].mail.eventType);
            var stage := Apply(cfg, s, Check(r, readOk)).runs[r].stage;
            && (category == Some(Projection.Security) ==> stage.Sending?)
            && (category == Some(Projection.Event) || category == Some(Projection.Community) ==>
                  && (stage.Reserving? <==> readOk && id !in s.reservations)
                  && (stage.Sending? <==> readOk && id in s.reservations))
  {
    var t := s.rows[s.runs[r].queue[0].id].mail.eventType;
    if Projection.CategoryOf(t).Some? {
      SecurityIsByPrefix(t);
    }
  }

  /** In every reachable state: mail of the identity and moderation services, of whatever type, has no reservation, was
      never postponed, and is on its way to the provider after any check. */
  lemma NeverHeldBack(cfg: Config, actions: seq<Action>, id: Id, rest: string)
    requires id in Exec(cfg, INIT, actions).rows
    requires var t := Exec(cfg, INIT, actions).rows[id].mail.eventType; t == "identity." + rest || t == "moderation." + rest
    ensures var s := Exec(cfg, INIT, actions);
            && id !in s.reservations
            && (forall e | e in s.history && e.Finished? && e.id == id :: !e.outcome.WasPostponed?)
            && (forall r: nat, readOk | Enabled(cfg, s, Check(r, readOk)) && s.runs[r].queue[0].id == id ::
                  Apply(cfg, s, Check(r, readOk)).runs[r].stage.Sending?)
  {
    ReachableHonest(cfg, actions);
    var s := Exec(cfg, INIT, actions);
    var t := s.rows[id].mail.eventType;
    assert "identity." <= t || "moderation." <= t;
    assert IsSecurity(s.rows[id].mail);
  }

  /** In every reachable state: the provider has taken mail of the other categories only under a reservation. */
  lemma SentUnderReservation(cfg: Config, actions: seq<Action>, m: Message)
    requires m in Exec(cfg, INIT, actions).messages && m.delivery in Exec(cfg, INIT, actions).rows
    requires var category := Projection.CategoryOf(Exec(cfg, INIT, actions).rows[m.delivery].mail.eventType);
             category == Some(Projection.Event) || category == Some(Projection.Community)
    ensures var s := Exec(cfg, INIT, actions); m.delivery in s.reservations && s.reservations[m.delivery].user == m.recipient
  {
    ReachableHonest(cfg, actions);
    var s := Exec(cfg, INIT, actions);
    assert Logged(m, s.rows, s.reservations, s.providerIds);
    SecurityIsByPrefix(s.rows[m.delivery].mail.eventType);
  }

  // ----- templates

  lemma SecurityTemplates(mail: Mail)
    requires Projection.CategoryOf(mail.eventType) == Some(Projection.Security)
    ensures TemplateFor(mail) ==
            Some(if mail.eventType == "identity.email_verification_requested" then "email_verification"
                 else if mail.eventType == "identity.password_reset_requested" then "password_reset"
                 else "security")
  {
    SecurityPrefixes(mail.eventType);
  }

  lemma CommunityTemplates(mail: Mail)
    requires Projection.CategoryOf(mail.eventType) == Some(Projection.Community)
    ensures TemplateFor(mail) == Some("membership")
  {
    SecurityIsByPrefix(mail.eventType);
    CommunityStart(mail.eventType);
    var t := mail.eventType;
    assert t[0] == 'm' || t[0] == 'c';
  }

  lemma RegistrationEnd(t: EventType)
    requires t in Projection.REGISTRATION_EVENTS
    ensures HasSuffix(t, "cancelled") <==> t == "registration.cancelled"
  {
    if t == "registration.cancelled" {
      assert t == "registration." + "cancelled";
    } else {
      assert t[|t| - 2] != 'e' || t[|t| - 4] != 'l';
    }
  }

  lemma RegistrationTemplates(mail: Mail)
    requires mail.eventType in Projection.REGISTRATION_EVENTS
    ensures TemplateFor(mail) ==
            Some(if mail.eventType == "registration.expired" then "cash_expiry"
                 else if mail.eventType == "registration.cancelled" then "cancellation"
                 else if mail.fromWaitlist && mail.eventType != "registration.waitlisted" then "promotion"
                 else "registration")
  {
    RegistrationStart(mail.eventType);
    RegistrationEnd(mail.eventType);
    NeitherKind(mail);
    assert !HasPrefix(mail.eventType, "event.");
  }

  /** What a template comes to past the account's security and the memberships. */
  lemma NeitherKind(mail: Mail)
    requires |mail.eventType| > 0 && (mail.eventType[0] == 'r' || mail.eventType[0] == 'e')
    ensures var t := mail.eventType;
            TemplateFor(mail) ==
            if t == "registration.expired" then Some("cash_expiry")
            else if (t == "registration.confirmed" || t == "registration.cash_pending") && mail.fromWaitlist
            then Some("promotion")
            else if HasSuffix(t, "cancelled") then Some("cancellation")
            else if HasPrefix(t, "event.") then Some("event_change")
            else if HasPrefix(t, "registration.") then Some("registration")
            else None
  {
  }

  lemma EventEnd(t: EventType)
    requires t in Projection.EVENT_EVENTS || t == "event.update_published"
    ensures HasSuffix(t, "cancelled") <==> t == "event.cancelled"
  {
    if t == "event.cancelled" {
      assert t == "event." + "cancelled";
    } else {
      assert t[|t| - 4] != 'l';
    }
  }

  lemma EventTemplates(mail: Mail)
    requires mail.eventType in Projection.EVENT_EVENTS || mail.eventType == "event.update_published"
    ensures TemplateFor(mail) == Some(if mail.eventType == "event.cancelled" then "cancellation" else "event_change")
  {
    EventStart(mail.eventType);
    EventEnd(mail.eventType);
    NeitherKind(mail);
  }

  lemma EveryCategoryHasTemplates(mail: Mail)
    requires Projection.CategoryOf(mail.eventType).Some?
    ensures TemplateFor(mail).Some?
  {
    if Projection.CategoryOf(mail.eventType) == Some(Projection.Security) {
      SecurityTemplates(mail);
    } else if Projection.CategoryOf(mail.eventType) == Some(Projection.Community) {
      CommunityTemplates(mail);
    } else if mail.eventType in Projection.REGISTRATION_EVENTS {
      RegistrationTemplates(mail);
    } else {
      EventTemplates(mail);
    }
  }

  /** Mail of an event that was projected can be rendered, except that a verification or reset mail needs the token of its
      event; the worker finds a template for every type the projection admits. */
  lemma ProjectedMailRenders(
      readers: Projection.Readers, users: Projection.Users, event: Projection.OutboxEvent, p: Projection.Projected,
      fromWaitlist: bool)
    requires Projection.Projecting(readers, users, event) == Ok(Some(p)) && p.email.Some?
    ensures var t := event.eventType;
            Renderable(Mail(p.notification.recipient, t, fromWaitlist, p.email.value.authTokenId.Some?)) <==>
              (t == "identity.email_verification_requested" || t == "identity.password_reset_requested" ==>
                 event.payload.authTokenId.Text?)
  {
    EveryCategoryHasTemplates(
      Mail(p.notification.recipient, event.eventType, fromWaitlist, p.email.value.authTokenId.Some?));
  }
}
