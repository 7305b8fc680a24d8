/** An event about a job's demand (src/balancing/event_map.hpp). */
module JobEvents {
  datatype Event = Event(jobId: int, epoch: int, demand: int, priority: real)
}
