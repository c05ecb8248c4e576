/** `fleet_workshop/models/fleet_vehicle.py`: service reminders by odometer. A
    vehicle is due for service once its odometer reaches the last service reading
    plus the service interval, and a scheduled job puts one "Service Due" to-do
    activity on each such vehicle. */
module FleetWorkshop {
  import opened Wrappers

  /** The fields of a `fleet.vehicle` the service rules read. `manager` is 0 when
      no fleet manager is set. */
  datatype Vehicle = Vehicle(id: nat, name: string, odometer: real, lastServiceOdometer: real,
                             serviceInterval: real, manager: nat)

  /** A `mail.activity` record. */
  datatype Activity = Activity(resModel: string, resId: nat, activityType: string, summary: string,
                               note: string, user: nat)

  /** `_compute_next_service`. */
  function NextServiceOdometer(v: Vehicle): real
  {
    v.lastServiceOdometer + v.serviceInterval
  }

  /** `_compute_service_due`. */
  predicate ServiceDue(v: Vehicle)
  {
    v.odometer >= NextServiceOdometer(v) && v.serviceInterval > 0.0
  }

  /** A vehicle with a positive interval is due exactly when it has driven at least
      one interval since its last service; one without an interval never is. */
  lemma ServiceDueMeaning(v: Vehicle)
    ensures ServiceDue(v) <==> v.serviceInterval > 0.0 && v.odometer - v.lastServiceOdometer >= v.serviceInterval
    ensures v.serviceInterval <= 0.0 ==> !ServiceDue(v)
  {
  }

  /** Recording a service at the current odometer ends the due state, as long as
      there is an interval. */
  lemma ServiceClearsDue(v: Vehicle)
    ensures !ServiceDue(v.(lastServiceOdometer := v.odometer))
  {
  }

  /** Driving on never ends the due state. */
  lemma DueStaysDue(v: Vehicle, further: real)
    requires ServiceDue(v) && further >= 0.0
    ensures ServiceDue(v.(odometer := v.odometer + further))
  {
  }

  const VehicleModel := "fleet.vehicle"
  const DueSummary := "Service Due"
  const TodoType := "mail.mail_activity_data_todo"

  /** An activity is the "Service Due" reminder of vehicle `id`. */
  predicate IsDueReminder(a: Activity, id: nat)
  {
    a.resId == id && a.resModel == VehicleModel && a.summary == DueSummary
  }

  /** `mail.activity.search([...], limit=1)` for the reminder of vehicle `id`. */
  function FindReminder(activities: seq<Activity>, id: nat): (r: Option<nat>)
    ensures r.None? <==> forall i :: 0 <= i < |activities| ==> !IsDueReminder(activities[i], id)
    ensures r.Some? ==> r.value < |activities| && IsDueReminder(activities[r.value], id)
    decreases |activities|
  {
    if activities == [] then None
    else if IsDueReminder(activities[0], id) then Some(0)
    else
      match FindReminder(activities[1..], id)
      case None => None
      case Some(i) => Some(i + 1)
  }

  /** The reminder the job schedules: on the vehicle, for its manager or else the
      user running the job, with a note giving the odometer and the due reading
      as `format` writes them. */
  function Reminder(v: Vehicle, currentUser: nat, format: real -> string): Activity
  {
    Activity(VehicleModel, v.id, TodoType, DueSummary,
             "Vehicle " + v.name + " is due for service. Current Odometer: " + format(v.odometer)
               + ", Due at: " + format(NextServiceOdometer(v)),
             if v.manager != 0 then v.manager else currentUser)
  }

  /** `_cron_check_service_due` over `vehicles` in search order: the activities
      after the job. */
  function CheckServiceDue(vehicles: seq<Vehicle>, activities: seq<Activity>, currentUser: nat,
                           format: real -> string): seq<Activity>
    decreases |vehicles|
  {
    if vehicles == [] then activities
    else
      var before := CheckServiceDue(vehicles[..|vehicles| - 1], activities, currentUser, format);
      var v := vehicles[|vehicles| - 1];
      if v.serviceInterval > 0.0 && v.odometer >= NextServiceOdometer(v) && FindReminder(before, v.id).None?
      then before + [Reminder(v, currentUser, format)]
      else before
  }

  /** How many "Service Due" reminders vehicle `id` has. */
  function Reminders(activities: seq<Activity>, id: nat): nat
    decreases |activities|
  {
    if activities == [] then 0
    else Reminders(activities[..|activities| - 1], id) + if IsDueReminder(activities[|activities| - 1], id) then 1 else 0
  }

  lemma {:induction false} NoReminders(activities: seq<Activity>, id: nat)
    ensures Reminders(activities, id) == 0 <==> FindReminder(activities, id).None?
    decreases |activities|
  {
    if activities != [] {
      var front := activities[..|activities| - 1];
      NoReminders(front, id);
      assert forall i :: 0 <= i < |front| ==> front[i] == activities[i];
    }
  }

  /** Some vehicle of the list is due, under vehicle id `id`. */
  predicate SomeDue(vehicles: seq<Vehicle>, id: nat)
  {
    exists i :: 0 <= i < |vehicles| && vehicles[i].id == id && ServiceDue(vehicles[i])
  }

  /** After the job, a vehicle that had reminders has the same ones; one that had
      none has exactly one if it is due and none otherwise. So the job never
      duplicates a reminder, and it reminds exactly the vehicles `ServiceDue`
      marks. */
  lemma {:induction false} OneReminderPerDueVehicle(vehicles: seq<Vehicle>, activities: seq<Activity>,
                                                    currentUser: nat, format: real -> string, id: nat)
    ensures Reminders(CheckServiceDue(vehicles, activities, currentUser, format), id)
      == if Reminders(activities, id) > 0 then Reminders(activities, id)
         else if SomeDue(vehicles, id) then 1 else 0
    decreases |vehicles|
  {
    if vehicles != [] {
      var front := vehicles[..|vehicles| - 1];
      var v := vehicles[|vehicles| - 1];
      assert vehicles == front + [v];
      OneReminderPerDueVehicle(front, activities, currentUser, format, id);
      CheckStep(front, v, activities, currentUser, format, id);
      SomeDueSnoc(front, v, id);
    }
  }

  /** One more vehicle adds a reminder for `id` only when it is that vehicle, it
      is due, and there is none yet. */
  lemma CheckStep(front: seq<Vehicle>, v: Vehicle, activities: seq<Activity>, currentUser: nat,
                  format: real -> string, id: nat)
    ensures var before := Reminders(CheckServiceDue(front, activities, currentUser, format), id);
      Reminders(CheckServiceDue(front + [v], activities, currentUser, format), id)
        == if before > 0 then before else if v.id == id && ServiceDue(v) then 1 else 0
  {
    var vehicles := front + [v];
    assert vehicles[..|vehicles| - 1] == front;
    var before := CheckServiceDue(front, activities, currentUser, format);
    NoReminders(before, v.id);
    AppendReminders(before, Reminder(v, currentUser, format), id);
  }

  lemma AppendReminders(activities: seq<Activity>, a: Activity, id: nat)
    ensures Reminders(activities + [a], id) == Reminders(activities, id) + if IsDueReminder(a, id) then 1 else 0
  {
    assert (activities + [a])[..|activities|] == activities;
  }

  lemma SomeDueSnoc(front: seq<Vehicle>, v: Vehicle, id: nat)
    ensures SomeDue(front + [v], id) <==> SomeDue(front, id) || (v.id == id && ServiceDue(v))
  {
    var vehicles := front + [v];
    if SomeDue(vehicles, id) && !(v.id == id && ServiceDue(v)) {
      var i :| 0 <= i < |vehicles| && vehicles[i].id == id && ServiceDue(vehicles[i]);
      assert i < |front| && front[i] == vehicles[i];
    }
    if SomeDue(front, id) {
      var i :| 0 <= i < |front| && front[i].id == id && ServiceDue(front[i]);
      assert vehicles[i] == front[i];
    }
    if v.id == id && ServiceDue(v) {
      assert vehicles[|front|] == v;
    }
  }

  /** The job only ever adds activities after the existing ones. */
  lemma {:induction false} CheckOnlyAppends(vehicles: seq<Vehicle>, activities: seq<Activity>,
                                            currentUser: nat, format: real -> string)
    ensures var after := CheckServiceDue(vehicles, activities, currentUser, format);
      |activities| <= |after| && after[..|activities|] == activities
    decreases |vehicles|
  {
    if vehicles != [] {
      CheckOnlyAppends(vehicles[..|vehicles| - 1], activities, currentUser, format);
    }
  }

  /** Running the job again right away schedules nothing. */
  lemma CheckIdempotent(vehicles: seq<Vehicle>, activities: seq<Activity>, currentUser: nat, format: real -> string)
    ensures var once := CheckServiceDue(vehicles, activities, currentUser, format);
      CheckServiceDue(vehicles, once, currentUser, format) == once
  {
    var once := CheckServiceDue(vehicles, activities, currentUser, format);
    forall v | v in vehicles && ServiceDue(v) ensures FindReminder(once, v.id).Some? {
      var i :| 0 <= i < |vehicles| && vehicles[i] == v;
      assert SomeDue(vehicles, v.id);
      OneReminderPerDueVehicle(vehicles, activities, currentUser, format, v.id);
      NoReminders(once, v.id);
    }
    NothingNew(vehicles, once, currentUser, format);
  }

  /** When every due vehicle already has a reminder, the job changes nothing. */
  lemma {:induction false} NothingNew(vehicles: seq<Vehicle>, activities: seq<Activity>, currentUser: nat,
                                      format: real -> string)
    requires forall v :: v in vehicles && ServiceDue(v) ==> FindReminder(activities, v.id).Some?
    ensures CheckServiceDue(vehicles, activities, currentUser, format) == activities
    decreases |vehicles|
  {
    if vehicles != [] {
      var front := vehicles[..|vehicles| - 1];
      assert forall v :: v in front ==> v in vehicles;
      assert vehicles[|vehicles| - 1] in vehicles;
      NothingNew(front, activities, currentUser, format);
    }
  }

  /** The activities in the database. */
  class ActivityStore {
    var activities: seq<Activity>

    constructor(activities: seq<Activity>)
      ensures this.activities == activities
    {
      this.activities := activities;
    }

    /** `_cron_check_service_due`. `vehicles` is every vehicle in search order; the
        search for a positive interval is the first test of the loop. */
    method CronCheckServiceDue(vehicles: seq<Vehicle>, currentUser: nat, format: real -> string)
      modifies this
      ensures activities == CheckServiceDue(vehicles, old(activities), currentUser, format)
    {
      ghost var start := activities;
      for i := 0 to |vehicles|
        invariant activities == CheckServiceDue(vehicles[..i], start, currentUser, format)
      {
        assert vehicles[..i + 1][..i] == vehicles[..i];
        var vehicle := vehicles[i];
        if vehicle.serviceInterval > 0.0 && vehicle.odometer >= NextServiceOdometer(vehicle) {
          var activity := FindReminder(activities, vehicle.id);
          if activity.None? {
            activities := activities + [Reminder(vehicle, currentUser, format)];
          }
        }
      }
      assert vehicles[..|vehicles|] == vehicles;
    }
  }
}
